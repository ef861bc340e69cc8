/**
 The modes of a block cipher, for blocks of any size: the loops of contrib/pgcrypto/blf.c that work
 in place on a buffer.
 */
module Cbc {
  import opened Blocks

  datatype BlockCipher = BlockCipher(size: nat, enc: seq<Byte> -> seq<Byte>, dec: seq<Byte> -> seq<Byte>)

  ghost predicate Inverse(c: BlockCipher) {
    && c.size > 0
    && forall b :: |b| == c.size ==> |c.enc(b)| == c.size && |c.dec(b)| == c.size && c.dec(c.enc(b)) == b
  }

  // A cipher that can be undone.
  type Cipher = c: BlockCipher | Inverse(c) witness BlockCipher(8, b => b, b => b)

  type Block = seq<Byte>

  // Blocks of n bytes.
  ghost predicate Sized(n: nat, bs: seq<Block>) { forall i :: 0 <= i < |bs| ==> |bs[i]| == n }

  function Xor(a: Block, b: Block): (c: Block)
    requires |a| == |b|
    ensures |c| == |a|
  {
    seq(|a|, i requires 0 <= i < |a| => a[i] ^ b[i])
  }

  lemma {:induction false} XorTwice(a: Block, b: Block)
    requires |a| == |b|
    ensures Xor(Xor(a, b), b) == a
  {
    forall i | 0 <= i < |a| ensures Xor(Xor(a, b), b)[i] == a[i] { XorByte(a[i], b[i]); }
  }

  lemma {:induction false} XorByte(x: Byte, y: Byte)
    ensures (x ^ y) ^ y == x
  {
  }

  // ---------------------------------------------------------------- remainders

  lemma {:induction false} MulAtLeast(n: nat, d: nat)
    requires d >= 1
    ensures n * d >= n
  {
  }

  lemma {:induction false} MulMinus(n: nat, x: int, y: int)
    ensures n * (x - y) == n * x - n * y
  {
  }

  // The quotient is the only one.
  lemma {:induction false} SameQuotient(n: nat, q: int, r: nat, p: int, m: nat)
    requires n * q + r == n * p + m && r < n && m < n
    ensures r == m
  {
    if q > p {
      MulMinus(n, q, p);
      MulAtLeast(n, q - p);
    } else if q < p {
      MulMinus(n, p, q);
      MulAtLeast(n, p - q);
    }
  }

  lemma {:induction false} ModIs(a: nat, n: nat, q: int, r: nat)
    requires a == n * q + r && r < n
    ensures a % n == r
  {
    SameQuotient(n, q, r, a / n, a % n);
  }

  lemma {:induction false} ModSmall(a: nat, n: nat)
    requires a < n
    ensures a % n == a
  {
    ModIs(a, n, 0, a);
  }

  lemma {:induction false} ModMore(a: nat, n: nat)
    requires n > 0
    ensures (a + n) % n == a % n
  {
    var q := a / n;
    assert a + n == n * (q + 1) + a % n;
    ModIs(a + n, n, q + 1, a % n);
  }

  // ---------------------------------------------------------------- blocks

  // The whole blocks of a text.
  function Split(n: nat, text: seq<Byte>): (bs: seq<Block>)
    requires n > 0
    ensures Sized(n, bs)
    decreases |text|
  {
    if |text| < n then [] else [text[..n]] + Split(n, text[n..])
  }

  function Flat(bs: seq<Block>): (text: seq<Byte>) { if bs == [] then [] else bs[0] + Flat(bs[1..]) }

  lemma {:induction false} FlatSplit(n: nat, text: seq<Byte>)
    requires n > 0 && |text| % n == 0
    ensures Flat(Split(n, text)) == text
    decreases |text|
  {
    if |text| >= n {
      ModMore(|text| - n, n);
      FlatSplit(n, text[n..]);
      assert Split(n, text)[1..] == Split(n, text[n..]);
    } else {
      ModSmall(|text|, n);
    }
  }

  lemma {:induction false} SplitFlat(n: nat, bs: seq<Block>)
    requires n > 0 && Sized(n, bs)
    ensures Split(n, Flat(bs)) == bs
  {
    if bs != [] {
      SplitFlat(n, bs[1..]);
      assert Flat(bs)[..n] == bs[0] && Flat(bs)[n..] == Flat(bs[1..]);
    }
  }

  lemma {:induction false} FlatIsWhole(n: nat, bs: seq<Block>)
    requires n > 0 && Sized(n, bs)
    ensures |Flat(bs)| % n == 0
  {
    if bs == [] {
      ModSmall(0, n);
    } else {
      FlatIsWhole(n, bs[1..]);
      ModMore(|Flat(bs[1..])|, n);
    }
  }

  lemma {:induction false} SplitJoin(n: nat, a: seq<Byte>, b: seq<Byte>)
    requires n > 0 && |a| % n == 0
    ensures Split(n, a + b) == Split(n, a) + Split(n, b)
    decreases |a|
  {
    if |a| >= n {
      ModMore(|a| - n, n);
      SplitJoin(n, a[n..], b);
      assert (a + b)[..n] == a[..n] && (a + b)[n..] == a[n..] + b;
    } else {
      ModSmall(|a|, n);
      assert a + b == b;
    }
  }

  lemma {:induction false} FlatJoin(a: seq<Block>, b: seq<Block>)
    ensures Flat(a + b) == Flat(a) + Flat(b)
    decreases |a|
  {
    if a == [] {
      assert a + b == b;
    } else {
      FlatJoin(a[1..], b);
      JoinFirst(a, b);
    }
  }

  // The block that the next one is chained to.
  function Last(iv: Block, cs: seq<Block>): (b: Block) { if cs == [] then iv else cs[|cs| - 1] }

  // ---------------------------------------------------------------- ECB and CBC

  function EcbEnc(ci: Cipher, ts: seq<Block>): (cs: seq<Block>)
    requires Sized(ci.size, ts)
    ensures |cs| == |ts| && Sized(ci.size, cs)
  {
    seq(|ts|, i requires 0 <= i < |ts| => ci.enc(ts[i]))
  }

  function EcbDec(ci: Cipher, cs: seq<Block>): (ts: seq<Block>)
    requires Sized(ci.size, cs)
    ensures |ts| == |cs| && Sized(ci.size, ts)
  {
    seq(|cs|, i requires 0 <= i < |cs| => ci.dec(cs[i]))
  }

  function CbcEnc(ci: Cipher, iv: Block, ts: seq<Block>): (cs: seq<Block>)
    requires |iv| == ci.size && Sized(ci.size, ts)
    ensures |cs| == |ts| && Sized(ci.size, cs)
    decreases |ts|
  {
    if ts == [] then []
    else
      var c := ci.enc(Xor(ts[0], iv));
      [c] + CbcEnc(ci, c, ts[1..])
  }

  function CbcDec(ci: Cipher, iv: Block, cs: seq<Block>): (ts: seq<Block>)
    requires |iv| == ci.size && Sized(ci.size, cs)
    ensures |ts| == |cs| && Sized(ci.size, ts)
    decreases |cs|
  {
    if cs == [] then [] else [Xor(ci.dec(cs[0]), iv)] + CbcDec(ci, cs[0], cs[1..])
  }

  lemma {:induction false} EcbRoundTrip(ci: Cipher, ts: seq<Block>)
    requires Sized(ci.size, ts)
    ensures EcbDec(ci, EcbEnc(ci, ts)) == ts
  {
  }

  lemma {:induction false} CbcRoundTrip(ci: Cipher, iv: Block, ts: seq<Block>)
    requires |iv| == ci.size && Sized(ci.size, ts)
    ensures CbcDec(ci, iv, CbcEnc(ci, iv, ts)) == ts
    decreases |ts|
  {
    if ts != [] {
      var c := ci.enc(Xor(ts[0], iv));
      CbcRoundTrip(ci, c, ts[1..]);
      XorTwice(ts[0], iv);
      assert CbcEnc(ci, iv, ts)[1..] == CbcEnc(ci, c, ts[1..]);
    }
  }

  lemma {:induction false} EcbJoin(ci: Cipher, a: seq<Block>, b: seq<Block>)
    requires Sized(ci.size, a) && Sized(ci.size, b)
    ensures EcbEnc(ci, a + b) == EcbEnc(ci, a) + EcbEnc(ci, b)
  {
  }

  lemma {:induction false} JoinFirst(a: seq<Block>, b: seq<Block>)
    requires a != []
    ensures (a + b)[0] == a[0] && (a + b)[1..] == a[1..] + b
  {
  }

  lemma {:induction false} AssocBlocks(a: seq<Block>, b: seq<Block>, c: seq<Block>)
    ensures a + (b + c) == (a + b) + c
  {
  }

  // Two texts encrypted one after the other, with the last block carried over, are one text.
  lemma {:induction false} CbcJoin(ci: Cipher, iv: Block, a: seq<Block>, b: seq<Block>)
    requires |iv| == ci.size && Sized(ci.size, a) && Sized(ci.size, b)
    ensures CbcEnc(ci, iv, a + b) == CbcEnc(ci, iv, a) + CbcEnc(ci, Last(iv, CbcEnc(ci, iv, a)), b)
    decreases |a|
  {
    if a == [] {
      assert a + b == b;
    } else {
      var c := ci.enc(Xor(a[0], iv));
      var cs := CbcEnc(ci, c, a[1..]);
      CbcJoin(ci, c, a[1..], b);
      JoinFirst(a, b);
      LastOf(iv, c, cs);
      AssocBlocks([c], cs, CbcEnc(ci, Last(c, cs), b));
    }
  }

  lemma {:induction false} LastOf(iv: Block, c: Block, cs: seq<Block>)
    ensures Last(iv, [c] + cs) == Last(c, cs)
  {
  }

  // ---------------------------------------------------------------- blocks of a buffer

  // Where block k begins.
  function Place(bs: seq<Block>, k: nat): (i: nat)
    requires k <= |bs|
  {
    |Flat(bs[..k])|
  }

  lemma {:induction false} PlaceNext(bs: seq<Block>, k: nat)
    requires k < |bs|
    ensures Place(bs, k + 1) == Place(bs, k) + |bs[k]|
  {
    assert bs[..k + 1] == bs[..k] + [bs[k]];
    FlatJoin(bs[..k], [bs[k]]);
    FlatFirst(bs[k], []);
    assert [bs[k]] + [] == [bs[k]];
  }

  lemma {:induction false} PlaceEnd(bs: seq<Block>)
    ensures Place(bs, |bs|) == |Flat(bs)|
  {
    assert bs[..|bs|] == bs;
  }

  // Places depend on the size of the blocks only.
  lemma {:induction false} PlaceSame(n: nat, a: seq<Block>, b: seq<Block>, k: nat)
    requires Sized(n, a) && Sized(n, b) && k <= |a| && k <= |b|
    ensures Place(a, k) == Place(b, k)
  {
    if k > 0 {
      PlaceSame(n, a, b, k - 1);
      PlaceNext(a, k - 1);
      PlaceNext(b, k - 1);
    }
  }

  lemma {:induction false} SameLength(n: nat, a: seq<Block>, b: seq<Block>)
    requires Sized(n, a) && Sized(n, b) && |a| == |b|
    ensures |Flat(a)| == |Flat(b)|
  {
    PlaceSame(n, a, b, |a|);
    PlaceEnd(a);
    PlaceEnd(b);
  }

  lemma {:induction false} PlaceInside(n: nat, bs: seq<Block>, k: nat)
    requires n > 0 && Sized(n, bs) && k <= |bs|
    ensures Place(bs, k) <= |Flat(bs)| && (Place(bs, k) < |Flat(bs)| <==> k < |bs|)
    decreases |bs| - k
  {
    if k == |bs| {
      PlaceEnd(bs);
    } else {
      PlaceInside(n, bs, k + 1);
      PlaceNext(bs, k);
    }
  }

  // The loop index i is at block k.
  ghost predicate IsAt(n: nat, bs: seq<Block>, k: nat, i: int) {
    k <= |bs| && i == Place(bs, k) && i <= |Flat(bs)| && (i < |Flat(bs)| <==> k < |bs|) && (i >= n <==> k > 0)
  }

  lemma {:induction false} AtBlock(n: nat, bs: seq<Block>, k: nat)
    requires n > 0 && Sized(n, bs) && k <= |bs|
    ensures IsAt(n, bs, k, Place(bs, k)) && Place(bs, 0) == 0
  {
    PlaceInside(n, bs, k);
    assert bs[..0] == [];
    if k > 0 { PlaceNext(bs, k - 1); }
  }

  lemma {:induction false} AtNext(n: nat, bs: seq<Block>, k: nat)
    requires n > 0 && Sized(n, bs) && k < |bs|
    ensures Place(bs, k + 1) == Place(bs, k) + n
    ensures IsAt(n, bs, k, Place(bs, k)) && IsAt(n, bs, k + 1, Place(bs, k) + n)
  {
    PlaceNext(bs, k);
    AtBlock(n, bs, k);
    AtBlock(n, bs, k + 1);
  }

  lemma {:induction false} FlatAt(bs: seq<Block>, k: nat)
    requires k < |bs|
    ensures Flat(bs) == Flat(bs[..k]) + bs[k] + Flat(bs[k + 1..])
  {
    assert bs == bs[..k] + ([bs[k]] + bs[k + 1..]);
    FlatJoin(bs[..k], [bs[k]] + bs[k + 1..]);
    FlatFirst(bs[k], bs[k + 1..]);
    Regroup3(Flat(bs[..k]), bs[k], Flat(bs[k + 1..]));
  }

  lemma {:induction false} FlatFirst(b: Block, bs: seq<Block>)
    ensures Flat([b] + bs) == b + Flat(bs)
  {
    assert ([b] + bs)[1..] == bs;
  }

  lemma {:induction false} Regroup3(a: seq<Byte>, b: seq<Byte>, c: seq<Byte>)
    ensures a + (b + c) == a + b + c
  {
  }

  // One block of a text, and one block changed.
  lemma {:induction false} FlatSlot(bs: seq<Block>, k: nat, b: Block)
    requires k < |bs| && |b| == |bs[k]|
    ensures var text, i := Flat(bs), Place(bs, k);
            && i + |b| <= |text| && text[i..i + |b|] == bs[k]
            && Flat(bs[k := b]) == text[..i] + b + text[i + |b|..]
  {
    FlatAt(bs, k);
    FlatAt(bs[k := b], k);
    assert bs[k := b][..k] == bs[..k] && bs[k := b][k + 1..] == bs[k + 1..];
    Middle(Flat(bs[..k]), bs[k], Flat(bs[k + 1..]));
  }

  lemma {:induction false} Middle(a: seq<Byte>, b: Block, c: seq<Byte>)
    ensures var text := a + b + c;
            text[|a|..|a| + |b|] == b && text[..|a|] == a && text[|a| + |b|..] == c
  {
  }

  // Put a block in its place.
  method WriteAt(data: array<Byte>, i: nat, b: Block, ghost bs: seq<Block>, ghost k: nat)
    requires k < |bs| && i == Place(bs, k) && data[..] == Flat(bs) && |b| == |bs[k]|
    modifies data
    ensures data[..] == Flat(bs[k := b])
  {
    FlatSlot(bs, k, b);
    ghost var text := data[..];
    CopyTo(data, i, b);
    Spliced(text, data[..], i, b);
  }

  method CopyTo(data: array<Byte>, i: nat, b: Block)
    requires i + |b| <= data.Length
    modifies data
    ensures data[..i] == old(data[..i]) && data[i + |b|..] == old(data[i + |b|..]) && data[i..i + |b|] == b
  {
    for j := 0 to |b|
      invariant data[..i] == old(data[..i]) && data[i + |b|..] == old(data[i + |b|..]) && data[i..i + j] == b[..j]
    {
      data[i + j] := b[j];
      assert data[i..i + j + 1] == data[i..i + j] + [b[j]];
      assert b[..j + 1] == b[..j] + [b[j]];
    }
    assert b[..|b|] == b;
  }

  lemma {:induction false} Spliced(a: seq<Byte>, t: seq<Byte>, i: nat, b: Block)
    requires |t| == |a| && i + |b| <= |a| && t[..i] == a[..i] && t[i + |b|..] == a[i + |b|..] && t[i..i + |b|] == b
    ensures t == a[..i] + b + a[i + |b|..]
  {
    assert t == t[..i] + t[i..i + |b|] + t[i + |b|..];
  }

  method ReadAt(data: array<Byte>, i: nat, n: nat, ghost bs: seq<Block>, ghost k: nat) returns (b: Block)
    requires k < |bs| && i == Place(bs, k) && n == |bs[k]| && data[..] == Flat(bs)
    ensures b == bs[k]
  {
    FlatSlot(bs, k, bs[k]);
    b := data[i..i + n];
  }

  // The loop that puts one block on another.
  method XorAt(data: array<Byte>, i: nat, pad: Block, ghost bs: seq<Block>, ghost k: nat)
    requires k < |bs| && i == Place(bs, k) && |pad| == |bs[k]| && data[..] == Flat(bs)
    modifies data
    ensures data[..] == Flat(bs[k := Xor(bs[k], pad)])
  {
    var b := ReadAt(data, i, |pad|, bs, k);
    var c := XorBlocks(b, pad);
    WriteAt(data, i, c, bs, k);
  }

  method XorBlocks(a: Block, b: Block) returns (c: Block)
    requires |a| == |b|
    ensures c == Xor(a, b)
  {
    c := [];
    for j := 0 to |a|
      invariant c == Xor(a, b)[..j]
    {
      c := c + [a[j] ^ b[j]];
    }
    assert Xor(a, b)[..|a|] == Xor(a, b);
  }

  // Load a block, encipher or decipher it, and store it.
  method ApplyAt(f: seq<Byte> -> seq<Byte>, data: array<Byte>, i: nat, n: nat, ghost bs: seq<Block>, ghost k: nat)
    requires k < |bs| && i == Place(bs, k) && n == |bs[k]| == |f(bs[k])| && data[..] == Flat(bs)
    modifies data
    ensures data[..] == Flat(bs[k := f(bs[k])])
  {
    var b := ReadAt(data, i, n, bs, k);
    WriteAt(data, i, f(b), bs, k);
  }

  // ---------------------------------------------------------------- the loops of blf.c

  // Every block replaced by its image.
  function Each(f: seq<Byte> -> seq<Byte>, ts: seq<Block>): (cs: seq<Block>)
    ensures |cs| == |ts|
  {
    seq(|ts|, i requires 0 <= i < |ts| => f(ts[i]))
  }

  ghost function Some(f: seq<Byte> -> seq<Byte>, ts: seq<Block>, k: nat): (bs: seq<Block>)
    requires k <= |ts|
    ensures |bs| == |ts|
  {
    Each(f, ts)[..k] + ts[k..]
  }

  lemma {:induction false} SomeMore(f: seq<Byte> -> seq<Byte>, ts: seq<Block>, k: nat)
    requires k < |ts|
    ensures Some(f, ts, k)[k] == ts[k] && Some(f, ts, k)[k := f(ts[k])] == Some(f, ts, k + 1)
  {
  }

  // blf_ecb_encrypt and blf_ecb_decrypt
  method EcbRun(f: seq<Byte> -> seq<Byte>, n: nat, data: array<Byte>, ghost ts: seq<Block>)
    requires n > 0 && Sized(n, ts) && data[..] == Flat(ts) && forall b :: |b| == n ==> |f(b)| == n
    modifies data
    ensures data[..] == Flat(Each(f, ts))
  {
    ghost var k := 0;
    var i := 0;
    assert Some(f, ts, 0) == ts;
    AtBlock(n, ts, 0);
    while i < data.Length
      invariant IsAt(n, ts, k, i) && data[..] == Flat(Some(f, ts, k))
      decreases data.Length - i
    {
      EcbStep(f, data, i, n, ts, k);
      AtNext(n, ts, k);
      i, k := i + n, k + 1;
    }
    assert Some(f, ts, |ts|) == Each(f, ts);
  }

  method EcbStep(f: seq<Byte> -> seq<Byte>, data: array<Byte>, i: nat, n: nat, ghost ts: seq<Block>, ghost k: nat)
    requires Sized(n, ts) && (forall b :: |b| == n ==> |f(b)| == n)
    requires k < |ts| && i == Place(ts, k) && data[..] == Flat(Some(f, ts, k))
    modifies data
    ensures data[..] == Flat(Some(f, ts, k + 1))
  {
    ghost var bs := Some(f, ts, k);
    SomeMore(f, ts, k);
    PlaceSame(n, ts, bs, k);
    ApplyAt(f, data, i, n, bs, k);
  }

  // One more block at the end.
  lemma {:induction false} CbcPush(ci: Cipher, iv: Block, ts: seq<Block>, k: nat)
    requires |iv| == ci.size && Sized(ci.size, ts) && k < |ts|
    ensures var cs := CbcEnc(ci, iv, ts[..k]);
            CbcEnc(ci, iv, ts[..k + 1]) == cs + [ci.enc(Xor(ts[k], Last(iv, cs)))]
  {
    assert ts[..k + 1] == ts[..k] + [ts[k]];
    CbcJoin(ci, iv, ts[..k], [ts[k]]);
    CbcOne(ci, Last(iv, CbcEnc(ci, iv, ts[..k])), ts[k]);
  }

  lemma {:induction false} CbcOne(ci: Cipher, iv: Block, t: Block)
    requires |iv| == ci.size == |t|
    ensures CbcEnc(ci, iv, [t]) == [ci.enc(Xor(t, iv))]
  {
  }

  // The blocks before k are encrypted.
  ghost function Half(ci: Cipher, iv: Block, ts: seq<Block>, k: nat): (bs: seq<Block>)
    requires |iv| == ci.size && Sized(ci.size, ts) && k <= |ts|
    ensures |bs| == |ts| && Sized(ci.size, bs)
  {
    CbcEnc(ci, iv, ts[..k]) + ts[k..]
  }

  // Changing the block behind a beginning.
  lemma {:induction false} UpdateNext(a: seq<Block>, ts: seq<Block>, k: nat, x: Block)
    requires |a| == k < |ts|
    ensures (a + ts[k..])[k] == ts[k] && (a + ts[k..])[k := x] == (a + [x]) + ts[k + 1..]
  {
  }

  // Changing the last block of a beginning.
  lemma {:induction false} UpdateLast(cs: seq<Block>, d: seq<Block>, k: nat, x: Block)
    requires k < |cs|
    ensures (cs[..k + 1] + d)[k] == cs[k] && (cs[..k + 1] + d)[k := x] == cs[..k] + ([x] + d)
  {
  }

  lemma {:induction false} UpdateTwice(bs: seq<Block>, k: nat, x: Block, y: Block)
    requires k < |bs|
    ensures bs[k := x][k := y] == bs[k := y] && bs[k := x][k] == x
  {
  }

  lemma {:induction false} HalfMore(ci: Cipher, iv: Block, ts: seq<Block>, k: nat)
    requires |iv| == ci.size && Sized(ci.size, ts) && k < |ts|
    ensures var pad := Last(iv, CbcEnc(ci, iv, ts[..k]));
            var c := ci.enc(Xor(ts[k], pad));
            && Half(ci, iv, ts, k)[k] == ts[k] && Last(iv, CbcEnc(ci, iv, ts[..k + 1])) == c
            && Half(ci, iv, ts, k)[k := c] == Half(ci, iv, ts, k + 1)
  {
    CbcPush(ci, iv, ts, k);
    var cs := CbcEnc(ci, iv, ts[..k]);
    var c := ci.enc(Xor(ts[k], Last(iv, cs)));
    UpdateNext(cs, ts, k, c);
  }

  // blf_cbc_encrypt, which goes forward and chains to the block just written
  method CbcEncrypt(ci: Cipher, iv: Block, data: array<Byte>, ghost ts: seq<Block>)
    requires |iv| == ci.size && Sized(ci.size, ts) && data[..] == Flat(ts)
    modifies data
    ensures data[..] == Flat(CbcEnc(ci, iv, ts))
  {
    ghost var k := 0;
    var pad, i := iv, 0;
    HalfStart(ci, iv, ts);
    AtBlock(ci.size, ts, 0);
    while i < data.Length
      invariant IsAt(ci.size, ts, k, i) && Written(ci, iv, data[..], pad, ts, k)
      decreases data.Length - i
    {
      pad := EncryptAt(ci, iv, data, i, pad, ts, k);
      AtNext(ci.size, ts, k);
      i, k := i + ci.size, k + 1;
    }
    HalfDone(ci, iv, ts);
  }

  // The blocks before k are encrypted in place, and pad is the last of them.
  ghost predicate Written(ci: Cipher, iv: Block, text: seq<Byte>, pad: Block, ts: seq<Block>, k: nat)
    requires |iv| == ci.size && Sized(ci.size, ts)
  {
    k <= |ts| && text == Flat(Half(ci, iv, ts, k)) && pad == Last(iv, CbcEnc(ci, iv, ts[..k]))
  }

  lemma {:induction false} HalfStart(ci: Cipher, iv: Block, ts: seq<Block>)
    requires |iv| == ci.size && Sized(ci.size, ts)
    ensures Half(ci, iv, ts, 0) == ts && Last(iv, CbcEnc(ci, iv, ts[..0])) == iv
  {
    assert CbcEnc(ci, iv, ts[..0]) == [];
  }

  lemma {:induction false} HalfDone(ci: Cipher, iv: Block, ts: seq<Block>)
    requires |iv| == ci.size && Sized(ci.size, ts)
    ensures Half(ci, iv, ts, |ts|) == CbcEnc(ci, iv, ts)
  {
    assert ts[..|ts|] == ts;
  }

  method EncryptAt(ci: Cipher, iv: Block, data: array<Byte>, i: nat, pad: Block, ghost ts: seq<Block>, ghost k: nat)
    returns (c: Block)
    requires |iv| == ci.size && Sized(ci.size, ts)
    requires k < |ts| && i == Place(ts, k) && Written(ci, iv, data[..], pad, ts, k)
    modifies data
    ensures Written(ci, iv, data[..], c, ts, k + 1)
  {
    ghost var bs := Half(ci, iv, ts, k);
    HalfMore(ci, iv, ts, k);
    PlaceSame(ci.size, ts, bs, k);
    c := ChainEncrypt(ci, data, i, pad, bs, k);
  }

  // A block put on the one before and enciphered.
  method ChainEncrypt(ci: Cipher, data: array<Byte>, i: nat, pad: Block, ghost bs: seq<Block>, ghost k: nat) returns (c: Block)
    requires Sized(ci.size, bs) && k < |bs| && i == Place(bs, k) && |pad| == ci.size && data[..] == Flat(bs)
    modifies data
    ensures c == ci.enc(Xor(bs[k], pad)) && data[..] == Flat(bs[k := c])
  {
    ghost var x := Xor(bs[k], pad);
    XorAt(data, i, pad, bs, k);
    UpdateTwice(bs, k, x, ci.enc(x));
    PlaceSame(ci.size, bs, bs[k := x], k);
    ApplyAt(ci.enc, data, i, ci.size, bs[k := x], k);
    PlaceSame(ci.size, bs, bs[k := ci.enc(x)], k);
    c := ReadAt(data, i, ci.size, bs[k := ci.enc(x)], k);
  }

  // The blocks from k on are decrypted.
  ghost function Rest(ci: Cipher, iv: Block, cs: seq<Block>, k: nat): (bs: seq<Block>)
    requires |iv| == ci.size && Sized(ci.size, cs) && k <= |cs|
    ensures |bs| == |cs| && Sized(ci.size, bs)
  {
    cs[..k] + CbcDec(ci, Last(iv, cs[..k]), cs[k..])
  }

  lemma {:induction false} RestMore(ci: Cipher, iv: Block, cs: seq<Block>, k: nat)
    requires |iv| == ci.size && Sized(ci.size, cs) && k < |cs|
    ensures Rest(ci, iv, cs, k + 1)[k] == cs[k] && (k > 0 ==> Rest(ci, iv, cs, k + 1)[k - 1] == Last(iv, cs[..k]))
    ensures Rest(ci, iv, cs, k + 1)[k := Xor(ci.dec(cs[k]), Last(iv, cs[..k]))] == Rest(ci, iv, cs, k)
  {
    var d := CbcDec(ci, cs[k], cs[k + 1..]);
    RestParts(ci, iv, cs, k);
    UpdateLast(cs, d, k, Xor(ci.dec(cs[k]), Last(iv, cs[..k])));
    if k > 0 { assert (cs[..k + 1] + d)[k - 1] == cs[k - 1] == cs[..k][k - 1]; }
  }

  lemma {:induction false} RestParts(ci: Cipher, iv: Block, cs: seq<Block>, k: nat)
    requires |iv| == ci.size && Sized(ci.size, cs) && k < |cs|
    ensures var d := CbcDec(ci, cs[k], cs[k + 1..]);
            && Rest(ci, iv, cs, k + 1) == cs[..k + 1] + d
            && Rest(ci, iv, cs, k) == cs[..k] + ([Xor(ci.dec(cs[k]), Last(iv, cs[..k]))] + d)
  {
    assert Last(iv, cs[..k + 1]) == cs[k];
    assert cs[k..][1..] == cs[k + 1..] && cs[k..][0] == cs[k];
  }

  // blf_cbc_decrypt, which goes backward, so that the block it chains to is still encrypted
  method CbcDecrypt(ci: Cipher, iv: Block, data: array<Byte>, ghost cs: seq<Block>)
    requires |iv| == ci.size && Sized(ci.size, cs) && data[..] == Flat(cs) && cs != []
    modifies data
    ensures data[..] == Flat(CbcDec(ci, iv, cs))
  {
    ghost var k := |cs| - 1;
    AtNext(ci.size, cs, k);
    PlaceEnd(cs);
    var i := data.Length - ci.size;
    RestDone(ci, iv, cs);
    while i >= ci.size
      invariant 0 <= k < |cs| && IsAt(ci.size, cs, k, i) && data[..] == Flat(Rest(ci, iv, cs, k + 1))
      decreases i
    {
      DecryptAt(ci, iv, data, i, cs, k);
      AtNext(ci.size, cs, k - 1);
      i, k := i - ci.size, k - 1;
    }
    DecryptFirst(ci, iv, data, cs);
  }

  lemma {:induction false} RestDone(ci: Cipher, iv: Block, cs: seq<Block>)
    requires |iv| == ci.size && Sized(ci.size, cs)
    ensures Rest(ci, iv, cs, |cs|) == cs && Rest(ci, iv, cs, 0) == CbcDec(ci, iv, cs)
  {
    assert cs[..|cs|] == cs && cs[..0] == [] && cs[0..] == cs;
  }

  method DecryptFirst(ci: Cipher, iv: Block, data: array<Byte>, ghost cs: seq<Block>)
    requires |iv| == ci.size && Sized(ci.size, cs) && cs != [] && data[..] == Flat(Rest(ci, iv, cs, 1))
    modifies data
    ensures data[..] == Flat(CbcDec(ci, iv, cs))
  {
    ghost var bs := Rest(ci, iv, cs, 1);
    RestMore(ci, iv, cs, 0);
    RestDone(ci, iv, cs);
    AtBlock(ci.size, bs, 0);
    assert cs[..0] == [];
    Decipher(ci, data, 0, bs, 0);
    PutOn(ci, data, 0, iv, bs, 0);
  }

  // A block deciphered, and put on the one before.
  method Decipher(ci: Cipher, data: array<Byte>, i: nat, ghost bs: seq<Block>, ghost k: nat)
    requires Sized(ci.size, bs) && k < |bs| && i == Place(bs, k) && data[..] == Flat(bs)
    modifies data
    ensures data[..] == Flat(bs[k := ci.dec(bs[k])])
  {
    ApplyAt(ci.dec, data, i, ci.size, bs, k);
  }

  method PutOn(ci: Cipher, data: array<Byte>, i: nat, pad: Block, ghost bs: seq<Block>, ghost k: nat)
    requires Sized(ci.size, bs) && k < |bs| && i == Place(bs, k) && |pad| == ci.size
    requires data[..] == Flat(bs[k := ci.dec(bs[k])])
    modifies data
    ensures data[..] == Flat(bs[k := Xor(ci.dec(bs[k]), pad)])
  {
    ghost var ds := bs[k := ci.dec(bs[k])];
    UpdateTwice(bs, k, ci.dec(bs[k]), Xor(ci.dec(bs[k]), pad));
    PlaceSame(ci.size, bs, ds, k);
    XorAt(data, i, pad, ds, k);
  }

  method DecryptAt(ci: Cipher, iv: Block, data: array<Byte>, i: nat, ghost cs: seq<Block>, ghost k: nat)
    requires |iv| == ci.size && Sized(ci.size, cs)
    requires 0 < k < |cs| && i == Place(cs, k) && data[..] == Flat(Rest(ci, iv, cs, k + 1))
    modifies data
    ensures data[..] == Flat(Rest(ci, iv, cs, k))
  {
    ghost var bs := Rest(ci, iv, cs, k + 1);
    RestMore(ci, iv, cs, k);
    PlaceSame(ci.size, cs, bs, k);
    ChainDecrypt(ci, data, i, bs, k);
  }

  method ChainDecrypt(ci: Cipher, data: array<Byte>, i: nat, ghost bs: seq<Block>, ghost k: nat)
    requires Sized(ci.size, bs) && 0 < k < |bs| && i == Place(bs, k) && data[..] == Flat(bs)
    modifies data
    ensures data[..] == Flat(bs[k := Xor(ci.dec(bs[k]), bs[k - 1])])
  {
    ghost var ds := bs[k := ci.dec(bs[k])];
    Decipher(ci, data, i, bs, k);
    PlaceSame(ci.size, bs, ds, k);
    PlaceNext(ds, k - 1);
    var pad := ReadAt(data, i - ci.size, ci.size, ds, k - 1);
    PutOn(ci, data, i, pad, bs, k);
  }
}

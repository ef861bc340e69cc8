/**
 Encryption with padding (contrib/pgcrypto/px.c) over the cipher contexts of
 contrib/pgcrypto/internal.c, for blocks of any size: encryption runs as two calls with the chaining
 block carried over and decryption as one, and the second undoes the first exactly as long as the
 length of the padding fits a byte.
 */
module Combo {
  import opened Blocks
  import opened Cbc
  import Blowfish

  datatype Mode = Ecb | Chained

  // ---------------------------------------------------------------- one cipher call

  function Enc(mode: Mode, ci: Cipher, iv: Block, text: seq<Byte>): (c: seq<Byte>)
    requires |iv| == ci.size
  {
    var ts := Split(ci.size, text);
    Flat(match mode case Ecb => EcbEnc(ci, ts) case Chained => CbcEnc(ci, iv, ts))
  }

  function Dec(mode: Mode, ci: Cipher, iv: Block, c: seq<Byte>): (text: seq<Byte>)
    requires |iv| == ci.size
  {
    var cs := Split(ci.size, c);
    Flat(match mode case Ecb => EcbDec(ci, cs) case Chained => CbcDec(ci, iv, cs))
  }

  // The chaining block after ciphertext c.
  function NextIv(mode: Mode, n: nat, iv: Block, c: seq<Byte>): (b: Block)
    requires n > 0 && |iv| == n
    ensures |b| == n
  {
    if mode == Ecb then iv else Last(iv, Split(n, c))
  }

  lemma {:induction false} EncLength(mode: Mode, ci: Cipher, iv: Block, text: seq<Byte>)
    requires |iv| == ci.size && |text| % ci.size == 0
    ensures |Enc(mode, ci, iv, text)| == |text|
  {
    var ts := Split(ci.size, text);
    FlatSplit(ci.size, text);
    match mode
    case Ecb => SameLength(ci.size, EcbEnc(ci, ts), ts);
    case Chained => SameLength(ci.size, CbcEnc(ci, iv, ts), ts);
  }

  lemma {:induction false} DecUndoesEnc(mode: Mode, ci: Cipher, iv: Block, text: seq<Byte>)
    requires |iv| == ci.size && |text| % ci.size == 0
    ensures Dec(mode, ci, iv, Enc(mode, ci, iv, text)) == text
  {
    var ts := Split(ci.size, text);
    FlatSplit(ci.size, text);
    match mode
    case Ecb =>
      SplitFlat(ci.size, EcbEnc(ci, ts));
      EcbRoundTrip(ci, ts);
    case Chained =>
      SplitFlat(ci.size, CbcEnc(ci, iv, ts));
      CbcRoundTrip(ci, iv, ts);
  }

  // Two calls are one.
  lemma {:induction false} EncJoin(mode: Mode, ci: Cipher, iv: Block, a: seq<Byte>, b: seq<Byte>)
    requires |iv| == ci.size && |a| % ci.size == 0
    ensures var c := Enc(mode, ci, iv, a); Enc(mode, ci, iv, a + b) == c + Enc(mode, ci, NextIv(mode, ci.size, iv, c), b)
  {
    var x, y := Split(ci.size, a), Split(ci.size, b);
    SplitJoin(ci.size, a, b);
    match mode
    case Ecb =>
      EcbJoin(ci, x, y);
      FlatJoin(EcbEnc(ci, x), EcbEnc(ci, y));
    case Chained =>
      var cs := CbcEnc(ci, iv, x);
      SplitFlat(ci.size, cs);
      CbcJoin(ci, iv, x, y);
      FlatJoin(cs, CbcEnc(ci, Last(iv, cs), y));
  }

  lemma {:induction false} LastBytes(n: nat, iv: Block, c: seq<Byte>)
    requires n > 0 && |c| % n == 0 && c != []
    ensures |c| >= n && Last(iv, Split(n, c)) == c[|c| - n..]
  {
    FlatSplit(n, c);
    assert Flat([]) == [];
    LastOfFlat(n, Split(n, c));
  }

  lemma {:induction false} LastOfFlat(n: nat, bs: seq<Block>)
    requires Sized(n, bs) && bs != []
    ensures var text := Flat(bs); |text| >= n && text[|text| - n..] == bs[|bs| - 1]
  {
    var k, text := |bs| - 1, Flat(bs);
    FlatSlot(bs, k, bs[k]);
    PlaceNext(bs, k);
    PlaceEnd(bs);
    assert text[Place(bs, k)..Place(bs, k) + n] == text[|text| - n..];
  }

  // struct int_ctx
  class Context {
    const ci: Cipher
    const mode: Mode
    var iv: Block

    predicate Valid()
      reads this
    {
      |iv| == ci.size
    }

    constructor (ci: Cipher, mode: Mode, iv: Block)
      requires |iv| == ci.size
      ensures this.ci == ci && this.mode == mode && this.iv == iv && Valid()
    {
      this.ci := ci;
      this.mode := mode;
      this.iv := iv;
    }

    // bf_encrypt and rj_encrypt
    method Encrypt(data: seq<Byte>) returns (ok: bool, res: seq<Byte>)
      requires Valid()
      modifies this
      ensures Valid() && (ok <==> |data| % ci.size == 0)
      ensures ok ==> res == Enc(mode, ci, old(iv), data) && iv == NextIv(mode, ci.size, old(iv), res)
      ensures !ok ==> iv == old(iv)
    {
      if |data| == 0 {
        EncEmpty(mode, ci, iv);
        return true, [];
      }
      if |data| % ci.size != 0 {
        return false, [];
      }
      EncLength(mode, ci, iv, data);
      match mode {
        case Ecb =>
          res := EcbCall(ci.enc, data);
        case Chained =>
          res := CbcCall(true, data);
          LastBytes(ci.size, iv, res);
          iv := res[|res| - ci.size..];
      }
      return true, res;
    }

    // A copy of the data, worked on in place.
    method EcbCall(f: seq<Byte> -> seq<Byte>, data: seq<Byte>) returns (res: seq<Byte>)
      requires |data| % ci.size == 0 && forall b :: |b| == ci.size ==> |f(b)| == ci.size
      ensures res == Flat(Each(f, Split(ci.size, data)))
    {
      FlatSplit(ci.size, data);
      var buf := new Byte[|data|](i requires 0 <= i < |data| => data[i]);
      assert buf[..] == data;
      EcbRun(f, ci.size, buf, Split(ci.size, data));
      res := buf[..];
    }

    method CbcCall(forward: bool, data: seq<Byte>) returns (res: seq<Byte>)
      requires Valid() && |data| % ci.size == 0 && data != []
      ensures res == if forward then Flat(CbcEnc(ci, iv, Split(ci.size, data))) else Flat(CbcDec(ci, iv, Split(ci.size, data)))
    {
      FlatSplit(ci.size, data);
      var buf := new Byte[|data|](i requires 0 <= i < |data| => data[i]);
      assert buf[..] == data;
      if forward {
        CbcEncrypt(ci, iv, buf, Split(ci.size, data));
      } else {
        CbcDecrypt(ci, iv, buf, Split(ci.size, data));
      }
      res := buf[..];
    }

    // bf_decrypt and rj_decrypt
    method Decrypt(data: seq<Byte>) returns (ok: bool, res: seq<Byte>)
      requires Valid()
      modifies this
      ensures Valid() && (ok <==> |data| % ci.size == 0)
      ensures ok ==> res == Dec(mode, ci, old(iv), data) && iv == NextIv(mode, ci.size, old(iv), data)
      ensures !ok ==> iv == old(iv)
    {
      if |data| == 0 {
        EncEmpty(mode, ci, iv);
        return true, [];
      }
      if |data| % ci.size != 0 {
        return false, [];
      }
      LastBytes(ci.size, iv, data);
      match mode {
        case Ecb =>
          res := EcbCall(ci.dec, data);
        case Chained =>
          res := CbcCall(false, data);
          iv := data[|data| - ci.size..];
      }
      return true, res;
    }
  }

  lemma {:induction false} EncEmpty(mode: Mode, ci: Cipher, iv: Block)
    requires |iv| == ci.size
    ensures Enc(mode, ci, iv, []) == [] == Dec(mode, ci, iv, []) && NextIv(mode, ci.size, iv, []) == iv
    ensures 0 % ci.size == 0
  {
    ModSmall(0, ci.size);
  }

  // ---------------------------------------------------------------- padding

  function Repeat(x: Byte, n: nat): (s: seq<Byte>)
    ensures |s| == n
  {
    seq(n, _ => x)
  }

  // How many bytes fill the last block of n bytes, one to n of them.
  function Missing(n: nat, len: nat): (m: nat)
    requires n > 0
    ensures 1 <= m <= n
  {
    n - len % n
  }

  lemma {:induction false} MissingFills(n: nat, len: nat)
    requires n > 0
    ensures (len + Missing(n, len)) % n == 0 && Missing(n, len % n) == Missing(n, len) && (len - len % n) % n == 0
    ensures Missing(n, len) == n <==> len % n == 0
  {
    var q, m := len / n, len % n;
    assert len + (n - m) == n * (q + 1) + 0;
    ModIs(len + (n - m), n, q + 1, 0);
    assert len - m == n * q + 0;
    ModIs(len - m, n, q, 0);
    ModSmall(m, n);
  }

  // What is put behind `len` bytes: with padding, bytes that hold their number, as far as a byte
  // can, and without, zeros up to a whole block.  Blocks of one byte need none.
  function Pad(n: nat, padding: bool, len: nat): (p: seq<Byte>)
    requires n > 0
    ensures |p| <= n
  {
    var m := Missing(n, len);
    if n == 1 then []
    else if padding then Repeat((m % 256) as Byte, m)
    else if m == n then [] else Repeat(0, m)
  }

  lemma {:induction false} PadFills(n: nat, padding: bool, len: nat)
    requires n > 0
    ensures (len + |Pad(n, padding, len)|) % n == 0 && Pad(n, padding, len % n) == Pad(n, padding, len)
  {
    MissingFills(n, len);
    MissingFills(n, len % n);
  }

  // The number in the last byte says how many to take off, if that many bytes hold it.
  function Unpad(n: nat, padding: bool, text: seq<Byte>): (r: seq<Byte>) {
    if n > 1 && padding && text != [] then
      var x := text[|text| - 1];
      var m := x as nat;
      if 0 < m <= n && m <= |text| && text[|text| - m..] == Repeat(x, m) then text[..|text| - m] else text
    else text
  }

  lemma {:induction false} NextByte(b: Byte)
    requires b as nat < 255
    ensures (b + 1) as nat == (b as nat) + 1
  {
  }

  lemma {:induction false} SomeByte(m: nat) returns (b: Byte)
    requires m < 256
    ensures b as nat == m
  {
    b := 0;
    if m > 0 {
      b := SomeByte(m - 1);
      NextByte(b);
      b := b + 1;
    }
  }

  lemma {:induction false} ByteNumber(m: nat)
    requires m < 256
    ensures (m as Byte) as nat == m
  {
    var b := SomeByte(m);
    SameByte(b);
  }

  lemma {:induction false} SameByte(b: Byte)
    ensures (b as nat) as Byte == b
  {
  }

  // Taking the padding off gives the data if and only if the length of the padding fits a byte.
  lemma {:induction false} UnpadUndoesPad(n: nat, data: seq<Byte>)
    requires n > 1
    ensures Unpad(n, true, data + Pad(n, true, |data|)) == data <==> Missing(n, |data|) < 256
  {
    var m := Missing(n, |data|);
    ByteNumber(m % 256);
    UnpadOf(n, data, m, (m % 256) as Byte);
  }

  lemma {:induction false} UnpadOf(n: nat, data: seq<Byte>, m: nat, x: Byte)
    requires n > 1 && 1 <= m <= n && x as nat == m % 256
    ensures Unpad(n, true, data + Repeat(x, m)) == data <==> m < 256
  {
    var text := data + Repeat(x, m);
    assert text[|text| - 1] == x;
    if m < 256 {
      assert text[|text| - m..] == Repeat(x, m) && text[..|text| - m] == data;
    } else {
      assert |Unpad(n, true, text)| > |data|;
    }
  }

  // ---------------------------------------------------------------- the code

  // combo_encrypt: the whole blocks in one call, and what is left with the padding in another
  method Encrypt(c: Context, padding: bool, data: seq<Byte>) returns (ok: bool, res: seq<Byte>)
    requires c.Valid()
    modifies c
    ensures ok && res == Enc(c.mode, c.ci, old(c.iv), data + Pad(c.ci.size, padding, |data|))
    ensures |res| <= |data| + c.ci.size
  {
    var bs := c.ci.size;
    ghost var iv := c.iv;
    PadFills(bs, padding, |data|);
    EncLength(c.mode, c.ci, iv, data + Pad(bs, padding, |data|));
    if bs > 1 {
      var bpos := |data| % bs;
      var rlen := |data| - bpos;
      var bbuf := LoadRest(data, rlen, bs);
      bpos := PutPad(bs, padding, bbuf, bpos);
      ok, res := EncryptWhole(c, data, rlen);
      TwoCalls(c.mode, c.ci, iv, padding, data, rlen, bbuf[..bpos]);
      ok, res := EncryptRest(c, bbuf[..bpos], res);
    } else {
      assert data + [] == data;
      ok, res := c.Encrypt(data);
    }
  }

  method LoadRest(data: seq<Byte>, rlen: nat, bs: nat) returns (bbuf: array<Byte>)
    requires rlen <= |data| < rlen + bs
    ensures fresh(bbuf) && bbuf.Length == bs * 4 && bbuf[..|data| - rlen] == data[rlen..]
  {
    bbuf := new Byte[bs * 4](_ => 0);
    for i := 0 to |data| - rlen
      invariant bbuf[..i] == data[rlen..rlen + i]
    {
      bbuf[i] := data[rlen + i];
    }
  }

  method EncryptWhole(c: Context, data: seq<Byte>, rlen: nat) returns (ok: bool, res: seq<Byte>)
    requires c.Valid() && rlen == |data| - |data| % c.ci.size
    modifies c
    ensures c.Valid() && ok && res == Enc(c.mode, c.ci, old(c.iv), data[..rlen])
    ensures c.iv == NextIv(c.mode, c.ci.size, old(c.iv), res)
  {
    if rlen != 0 {
      MissingFills(c.ci.size, |data|);
      ok, res := c.Encrypt(data[..rlen]);
    } else {
      EncEmpty(c.mode, c.ci, c.iv);
      ok, res := true, [];
    }
  }

  method EncryptRest(c: Context, rest: seq<Byte>, first: seq<Byte>) returns (ok: bool, res: seq<Byte>)
    requires c.Valid() && |rest| % c.ci.size == 0
    modifies c
    ensures ok && res == first + Enc(c.mode, c.ci, old(c.iv), rest)
  {
    ok, res := true, first;
    if |rest| != 0 {
      var more;
      ok, more := c.Encrypt(rest);
      res := res + more;
    } else {
      EncEmpty(c.mode, c.ci, c.iv);
    }
  }

  lemma {:induction false} TwoCalls(mode: Mode, ci: Cipher, iv: Block, padding: bool, data: seq<Byte>, rlen: nat,
                                    rest: seq<Byte>)
    requires |iv| == ci.size
    requires rlen == |data| - |data| % ci.size && rest == data[rlen..] + Pad(ci.size, padding, |data| % ci.size)
    ensures |rest| % ci.size == 0
    ensures var c := Enc(mode, ci, iv, data[..rlen]);
            Enc(mode, ci, iv, data + Pad(ci.size, padding, |data|)) == c + Enc(mode, ci, NextIv(mode, ci.size, iv, c), rest)
  {
    PadFills(ci.size, padding, |data|);
    PadFills(ci.size, padding, |data| % ci.size);
    MissingFills(ci.size, |data|);
    Parts(data, rlen, Pad(ci.size, padding, |data|), rest);
    EncJoin(mode, ci, iv, data[..rlen], rest);
  }

  // The bytes that fill the last block.
  method PutPad(bs: nat, padding: bool, bbuf: array<Byte>, len: nat) returns (bpos: nat)
    requires bs > 1 && bbuf.Length == bs * 4 && len < bs
    modifies bbuf
    ensures bpos <= bbuf.Length && bbuf[..bpos] == old(bbuf[..len]) + Pad(bs, padding, len)
  {
    bpos := len;
    MissingFills(bs, len);
    if padding || len % bs != 0 {
      var pad := bs - len % bs;
      bpos := FillWith(bbuf, len, pad, if padding then (pad % 256) as Byte else 0);
    }
  }

  method FillWith(bbuf: array<Byte>, len: nat, pad: nat, x: Byte) returns (bpos: nat)
    requires len + pad <= bbuf.Length
    modifies bbuf
    ensures bpos == len + pad && bbuf[..bpos] == old(bbuf[..len]) + Repeat(x, pad)
  {
    bpos := len;
    for i := 0 to pad
      invariant bpos == len + i && bbuf[..bpos] == old(bbuf[..len]) + Repeat(x, i)
    {
      bbuf[bpos] := x;
      assert bbuf[..bpos + 1] == bbuf[..bpos] + [x];
      assert Repeat(x, i + 1) == Repeat(x, i) + [x];
      bpos := bpos + 1;
    }
  }

  lemma {:induction false} Parts(data: seq<Byte>, rlen: nat, pad: seq<Byte>, rest: seq<Byte>)
    requires rlen <= |data| && rest == data[rlen..] + pad
    ensures data + pad == data[..rlen] + rest
  {
  }

  // combo_decrypt; `outside` is what the code finds at place 2^32 - 1, where it looks for the last
  // byte of an empty result
  method Decrypt(c: Context, padding: bool, data: seq<Byte>, outside: Byte) returns (ok: bool, res: seq<Byte>)
    requires c.Valid()
    modifies c
    ensures ok <==> |data| % c.ci.size == 0
    ensures ok ==> res == Unpad(c.ci.size, padding, Dec(c.mode, c.ci, old(c.iv), data))
  {
    var bs := c.ci.size;
    if bs > 1 && |data| % bs != 0 {
      return false, [];
    }
    ok, res := c.Decrypt(data);
    if bs > 1 && padding {
      res := TakeOff(bs, res, outside);
    }
  }

  // The padding test; whatever lies outside, nothing is taken off an empty result.
  method TakeOff(bs: nat, data: seq<Byte>, outside: Byte) returns (res: seq<Byte>)
    requires bs > 1
    ensures res == Unpad(bs, true, data)
  {
    res := data;
    var rlen := |res|;
    var x := if rlen == 0 then outside else res[rlen - 1];
    var pad := x as nat;
    var padOk := false;
    if 0 < pad <= bs && pad <= rlen {
      padOk := AllAre(res[rlen - pad..], x);
    }
    if padOk {
      res := res[..rlen - pad];
    }
  }

  method AllAre(s: seq<Byte>, x: Byte) returns (yes: bool)
    ensures yes <==> s == Repeat(x, |s|)
  {
    for i := 0 to |s|
      invariant forall j :: 0 <= j < i ==> s[j] == x
    {
      if s[i] != x {
        assert Repeat(x, |s|)[i] == x;
        return false;
      }
    }
    return true;
  }

  // combo_init: the initial block is cut or filled with zeros
  function InitialBlock(n: nat, iv: seq<Byte>): (b: Block)
    ensures |b| == n
  {
    (iv + Zeros(n))[..n]
  }

  // The data comes back: blocks of one byte are not padded, otherwise the length of the padding has
  // to fit a byte, or, without padding, there is nothing to fill.
  predicate ComesBack(n: nat, padding: bool, len: nat)
    requires n > 0
  {
    n == 1 || if padding then Missing(n, len) < 256 else len % n == 0
  }

  // Under fresh contexts with the same key and initial block, decryption gives back what was
  // encrypted, for every cipher that can be undone.
  method RoundTrip(ci: Cipher, mode: Mode, iv: seq<Byte>, padding: bool, data: seq<Byte>, outside: Byte)
    returns (ok: bool, back: seq<Byte>)
    ensures ok && (back == data <==> ComesBack(ci.size, padding, |data|))
    ensures !padding ==> back == data + Pad(ci.size, false, |data|)
  {
    var b := InitialBlock(ci.size, iv);
    var c1 := new Context(ci, mode, b);
    var res;
    ok, res := Encrypt(c1, padding, data);
    var c2 := new Context(ci, mode, b);
    Restored(mode, ci, b, padding, data);
    ok, back := Decrypt(c2, padding, res, outside);
  }

  lemma {:induction false} Restored(mode: Mode, ci: Cipher, iv: Block, padding: bool, data: seq<Byte>)
    requires |iv| == ci.size
    ensures var c := Enc(mode, ci, iv, data + Pad(ci.size, padding, |data|));
            var back := Unpad(ci.size, padding, Dec(mode, ci, iv, c));
            && |c| % ci.size == 0
            && (back == data <==> ComesBack(ci.size, padding, |data|))
            && (!padding ==> back == data + Pad(ci.size, false, |data|))
  {
    var n := ci.size;
    PadFills(n, padding, |data|);
    EncLength(mode, ci, iv, data + Pad(n, padding, |data|));
    DecUndoesEnc(mode, ci, iv, data + Pad(n, padding, |data|));
    UnpaddedIs(n, padding, data);
  }

  lemma {:induction false} UnpaddedIs(n: nat, padding: bool, data: seq<Byte>)
    requires n > 0
    ensures var back := Unpad(n, padding, data + Pad(n, padding, |data|));
            && (back == data <==> ComesBack(n, padding, |data|))
            && (!padding ==> back == data + Pad(n, false, |data|))
  {
    MissingFills(n, |data|);
    if n == 1 || (!padding && |data| % n == 0) {
      assert data + [] == data;
    } else if padding {
      UnpadUndoesPad(n, data);
    } else {
      assert |data + Pad(n, false, |data|)| > |data|;
    }
  }

  // With Blowfish, padded data always comes back.
  method BlowfishRoundTrip(key: Blowfish.Key, mode: Mode, iv: seq<Byte>, data: seq<Byte>, outside: Byte)
    returns (ok: bool, back: seq<Byte>)
    ensures ok && back == data
  {
    ok, back := RoundTrip(Blowfish.CipherOf(key), mode, iv, true, data, outside);
  }
}

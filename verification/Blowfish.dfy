/**
 Blowfish (contrib/pgcrypto/blf.c): deciphering undoes enciphering for every set of subkeys and
 S-boxes, and the loops that work in place on a buffer, forward to encrypt and backward to decrypt,
 undo each other.
 */
module Blowfish {
  import opened Blocks
  import Cbc

  // The subkeys and the four S-boxes, one after the other.
  datatype Schedule = Schedule(s: seq<Word>, p: seq<Word>)
  type Key = k: Schedule | |k.s| == 1024 && |k.p| == 18
    witness Schedule(seq(1024, _ => 0), seq(18, _ => 0))

  datatype Halves<T> = Halves(l: T, r: T)

  function Swap<T>(h: Halves<T>): (g: Halves<T>) { Halves(h.r, h.l) }

  // ---------------------------------------------------------------- Feistel networks

  ghost predicate Cancels<T(!new)>(xor: (T, T) -> T) { forall x, y :: xor(xor(x, y), y) == x }

  // Rounds 1 to n: an odd one changes the right half and an even one the left, each by f of the
  // other half.
  function Up<T>(xor: (T, T) -> T, f: (T, nat) -> T, h: Halves<T>, n: nat): (g: Halves<T>) {
    if n == 0 then h
    else
      var g := Up(xor, f, h, n - 1);
      if n % 2 == 1 then g.(r := xor(g.r, f(g.l, n))) else g.(l := xor(g.l, f(g.r, n)))
  }

  // Rounds n to 1, where an even one changes the right half and an odd one the left.
  function Down<T>(xor: (T, T) -> T, f: (T, nat) -> T, h: Halves<T>, n: nat): (g: Halves<T>)
    decreases n
  {
    if n == 0 then h
    else
      Down(xor, f, if n % 2 == 0 then h.(r := xor(h.r, f(h.l, n))) else h.(l := xor(h.l, f(h.r, n))), n - 1)
  }

  lemma {:induction false} DownUndoesUp<T(!new)>(xor: (T, T) -> T, f: (T, nat) -> T, h: Halves<T>, n: nat)
    requires Cancels(xor)
    ensures Down(xor, f, Swap(Up(xor, f, h, n)), n) == Swap(h)
  {
    if n > 0 {
      var g := Up(xor, f, h, n - 1);
      assert xor(xor(g.l, f(g.r, n)), f(g.r, n)) == g.l && xor(xor(g.r, f(g.l, n)), f(g.l, n)) == g.r;
      DownUndoesUp(xor, f, h, n - 1);
    }
  }

  // The rounds between two more keys.
  function Forward<T>(xor: (T, T) -> T, f: (T, nat) -> T, first: T, last: T, n: nat, x: Halves<T>): (y: Halves<T>) {
    var h := Up(xor, f, Halves(xor(x.l, first), x.r), n);
    Halves(xor(h.r, last), h.l)
  }

  function Backward<T>(xor: (T, T) -> T, f: (T, nat) -> T, first: T, last: T, n: nat, x: Halves<T>): (y: Halves<T>) {
    var h := Down(xor, f, Halves(xor(x.l, last), x.r), n);
    Halves(xor(h.r, first), h.l)
  }

  lemma {:induction false} BackwardUndoesForward<T(!new)>(xor: (T, T) -> T, f: (T, nat) -> T, first: T, last: T,
                                                          n: nat, x: Halves<T>)
    requires Cancels(xor)
    ensures Backward(xor, f, first, last, n, Forward(xor, f, first, last, n, x)) == x
  {
    var h := Halves(xor(x.l, first), x.r);
    var g := Up(xor, f, h, n);
    assert xor(xor(g.r, last), last) == g.r;
    DownUndoesUp(xor, f, h, n);
    assert xor(xor(x.l, first), first) == x.l;
  }

  // ---------------------------------------------------------------- one block of two words

  function F(k: Key, x: Word): (y: Word) {
    var b := WordBytes(x);
    ((k.s[b[0] as nat] + k.s[0x100 + b[1] as nat]) ^ k.s[0x200 + b[2] as nat]) + k.s[0x300 + b[3] as nat]
  }

  function XorWords(): (xor: (Word, Word) -> Word)
    ensures Cancels(xor)
  {
    (x, y) => x ^ y
  }

  // What round n puts on one half, given the other.
  function RoundKey(k: Key): (f: (Word, nat) -> Word) {
    (x: Word, n: nat) => F(k, x) ^ (if n < 18 then k.p[n] else 0)
  }

  // There are two more subkeys than rounds.
  function RoundCount(k: Key): (n: nat)
    ensures n == 16
  {
    |k.p| - 2
  }

  // Blowfish_encipher
  function Encipher(k: Key, x: Halves<Word>): (y: Halves<Word>) {
    Forward(XorWords(), RoundKey(k), k.p[0], k.p[17], RoundCount(k), x)
  }

  // Blowfish_decipher
  function Decipher(k: Key, x: Halves<Word>): (y: Halves<Word>) {
    Backward(XorWords(), RoundKey(k), k.p[0], k.p[17], RoundCount(k), x)
  }

  lemma {:induction false} DecipherUndoesEncipher(k: Key, x: Halves<Word>)
    ensures Decipher(k, Encipher(k, x)) == x
  {
    BackwardUndoesForward(XorWords(), RoundKey(k), k.p[0], k.p[17], RoundCount(k), x);
  }

  // ---------------------------------------------------------------- one block of eight bytes

  function Load(b: seq<Byte>): (h: Halves<Word>)
    requires |b| == 8
  {
    Halves(WordOf(b[0], b[1], b[2], b[3]), WordOf(b[4], b[5], b[6], b[7]))
  }

  function Store(h: Halves<Word>): (b: seq<Byte>)
    ensures |b| == 8
  {
    WordBytes(h.l) + WordBytes(h.r)
  }

  function EncryptBlock(k: Key, b: seq<Byte>): (c: seq<Byte>)
    requires |b| == 8
    ensures |c| == 8
  {
    Store(Encipher(k, Load(b)))
  }

  function DecryptBlock(k: Key, c: seq<Byte>): (b: seq<Byte>)
    requires |c| == 8
    ensures |b| == 8
  {
    Store(Decipher(k, Load(c)))
  }

  lemma {:induction false} LoadWord(w: Word)
    ensures WordOf(WordBytes(w)[0], WordBytes(w)[1], WordBytes(w)[2], WordBytes(w)[3]) == w
  {
  }

  lemma {:induction false} StoreWord(b0: Byte, b1: Byte, b2: Byte, b3: Byte)
    ensures WordBytes(WordOf(b0, b1, b2, b3)) == [b0, b1, b2, b3]
  {
  }

  lemma {:induction false} LoadStore(h: Halves<Word>)
    ensures Load(Store(h)) == h
  {
    LoadWord(h.l);
    LoadWord(h.r);
  }

  lemma {:induction false} StoreLoad(b: seq<Byte>)
    requires |b| == 8
    ensures Store(Load(b)) == b
  {
    StoreWord(b[0], b[1], b[2], b[3]);
    StoreWord(b[4], b[5], b[6], b[7]);
  }

  lemma {:induction false} DecryptUndoesEncrypt(k: Key, b: seq<Byte>)
    requires |b| == 8
    ensures DecryptBlock(k, EncryptBlock(k, b)) == b
  {
    LoadStore(Encipher(k, Load(b)));
    DecipherUndoesEncipher(k, Load(b));
    StoreLoad(b);
  }

  // Blowfish as a cipher on blocks of bytes.
  function CipherOf(k: Key): (c: Cbc.Cipher)
    ensures c.size == 8
  {
    var c := Cbc.BlockCipher(8, b => if |b| == 8 then EncryptBlock(k, b) else b, b => if |b| == 8 then DecryptBlock(k, b) else b);
    IsInverse(k, c);
    c
  }

  lemma {:induction false} IsInverse(k: Key, c: Cbc.BlockCipher)
    requires c.size == 8 && forall b :: |b| == 8 ==> c.enc(b) == EncryptBlock(k, b) && c.dec(b) == DecryptBlock(k, b)
    ensures Cbc.Inverse(c)
  {
    forall b | |b| == 8 ensures |c.enc(b)| == 8 && |c.dec(b)| == 8 && c.dec(c.enc(b)) == b {
      DecryptUndoesEncrypt(k, b);
    }
  }
}

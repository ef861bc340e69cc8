/**
 Keyed digests (contrib/pgcrypto/px-hmac.c) over any digest object, against section 2 of RFC 2104,
 and the SHA-1 object of contrib/pgcrypto/internal.c as one such object.
 */
module Hmac {
  import opened Blocks
  import opened Wrappers
  import S = Sha1

  // What a digest object is made for: a hash function with its block and result sizes.
  datatype Digest = Digest(hash: seq<Byte> -> seq<Byte>, block: nat, result: nat)

  ghost predicate Sized(d: Digest) { forall text :: |d.hash(text)| == d.result }

  // A key longer than a block is digested into a buffer of one block.
  predicate KeyFits(d: Digest, key: seq<Byte>) { |key| <= d.block || d.result <= d.block }

  // ---------------------------------------------------------------- the definition

  // A key as long as a block: a longer one is replaced by its digest, and zeros fill it up.
  function KeyBlock(d: Digest, key: seq<Byte>): (k: seq<Byte>)
    requires Sized(d) && KeyFits(d, key)
    ensures |k| == d.block
  {
    var short := if |key| > d.block then d.hash(key) else key;
    short + Zeros(d.block - |short|)
  }

  function Xor(k: seq<Byte>, x: Byte): (r: seq<Byte>)
    ensures |r| == |k|
  {
    seq(|k|, i requires 0 <= i < |k| => k[i] ^ x)
  }

  function Inner(d: Digest, key: seq<Byte>): (pad: seq<Byte>)
    requires Sized(d) && KeyFits(d, key)
    ensures |pad| == d.block
  {
    Xor(KeyBlock(d, key), 0x36)
  }

  function Outer(d: Digest, key: seq<Byte>): (pad: seq<Byte>)
    requires Sized(d) && KeyFits(d, key)
    ensures |pad| == d.block
  {
    Xor(KeyBlock(d, key), 0x5c)
  }

  function Hmac(d: Digest, key: seq<Byte>, text: seq<Byte>): (mac: seq<Byte>)
    requires Sized(d) && KeyFits(d, key)
    ensures |mac| == d.result
  {
    d.hash(Outer(d, key) + d.hash(Inner(d, key) + text))
  }

  // ---------------------------------------------------------------- digest objects

  // A digest object takes in text and gives its hash; afterwards it has to be reset.
  class Md {
    const d: Digest
    var text: seq<Byte>

    constructor (d: Digest)
      ensures this.d == d && text == []
    {
      this.d, text := d, [];
    }

    method Reset()
      modifies this
      ensures text == []
    {
      text := [];
    }

    method Update(data: seq<Byte>)
      modifies this
      ensures text == old(text) + data
    {
      text := text + data;
    }

    method Finish() returns (out: seq<Byte>)
      modifies this
      ensures out == d.hash(old(text))
    {
      out := d.hash(text);
    }
  }

  // ---------------------------------------------------------------- the code

  class Context {
    const md: Md
    const ipad: array<Byte>
    const opad: array<Byte>

    ghost predicate Apart()
      reads this
    {
      Sized(md.d) && ipad != opad && ipad.Length == opad.Length == md.d.block
    }

    ghost predicate Keyed(key: seq<Byte>)
      reads this, ipad, opad
    {
      Apart() && KeyFits(md.d, key) && ipad[..] == Inner(md.d, key) && opad[..] == Outer(md.d, key)
    }

    // Keyed, and `text` has been taken in since.
    ghost predicate Holds(key: seq<Byte>, text: seq<Byte>)
      reads this, ipad, opad, md
    {
      Keyed(key) && md.text == Inner(md.d, key) + text
    }

    constructor (md: Md)
      requires Sized(md.d)
      ensures Apart() && this.md == md && fresh(ipad) && fresh(opad)
    {
      this.md := md;
      ipad := new Byte[md.d.block];
      opad := new Byte[md.d.block];
    }

    // hmac_init; a key whose digest is longer than the buffer of one block overruns that buffer
    method Init(key: seq<Byte>) returns (fits: bool)
      requires Apart() && md.text == []
      modifies md, ipad, opad
      ensures fits <==> KeyFits(md.d, key)
      ensures fits ==> Holds(key, [])
    {
      var short := Shorten(key);
      fits := |short| <= md.d.block;
      if !fits {
        return;
      }
      var keybuf := FillUp(short, md.d.block);
      WritePads(keybuf);
      md.Update(ipad[..]);
    }

    // A key longer than a block is digested.
    method Shorten(key: seq<Byte>) returns (short: seq<Byte>)
      requires md.text == []
      modifies md
      ensures md.text == [] && short == if |key| > md.d.block then md.d.hash(key) else key
    {
      short := key;
      if |key| > md.d.block {
        md.Update(key);
        assert [] + key == key;
        short := md.Finish();
        md.Reset();
      }
    }

    method WritePads(keybuf: seq<Byte>)
      requires Apart() && |keybuf| == md.d.block
      modifies ipad, opad
      ensures ipad[..] == Xor(keybuf, 0x36) && opad[..] == Xor(keybuf, 0x5c)
    {
      for i := 0 to |keybuf|
        invariant forall j :: 0 <= j < i ==> ipad[j] == keybuf[j] ^ 0x36
        invariant forall j :: 0 <= j < i ==> opad[j] == keybuf[j] ^ 0x5c
      {
        ipad[i] := keybuf[i] ^ 0x36;
        opad[i] := keybuf[i] ^ 0x5c;
      }
    }

    // hmac_reset
    method Reset(ghost key: seq<Byte>)
      requires Keyed(key)
      modifies md
      ensures Holds(key, [])
    {
      md.Reset();
      md.Update(ipad[..]);
    }

    // hmac_update
    method Update(data: seq<Byte>, ghost key: seq<Byte>, ghost text: seq<Byte>)
      requires Holds(key, text)
      modifies md
      ensures Holds(key, text + data)
    {
      md.Update(data);
      assert Inner(md.d, key) + text + data == Inner(md.d, key) + (text + data);
    }

    // hmac_finish
    method Finish(ghost key: seq<Byte>, ghost text: seq<Byte>) returns (mac: seq<Byte>)
      requires Holds(key, text)
      modifies md
      ensures Keyed(key) && mac == Hmac(md.d, key, text)
    {
      var buf := md.Finish();
      md.Reset();
      md.Update(opad[..]);
      md.Update(buf);
      assert [] + Outer(md.d, key) == Outer(md.d, key);
      mac := md.Finish();
    }
  }

  // The key in a block of its own, with zeros behind it.
  method FillUp(key: seq<Byte>, bs: nat) returns (block: seq<Byte>)
    requires |key| <= bs
    ensures block == key + Zeros(bs - |key|)
  {
    var keybuf := new Byte[bs](_ => 0);
    for i := 0 to |key|
      invariant forall j :: 0 <= j < i ==> keybuf[j] == key[j]
      invariant forall j :: i <= j < bs ==> keybuf[j] == 0
    {
      keybuf[i] := key[i];
    }
    block := keybuf[..];
  }

  // px_find_hmac: digests with blocks of less than two bytes are refused.
  method Find(d: Digest) returns (r: Option<Context>)
    requires Sized(d)
    ensures r.None? <==> d.block < 2
    ensures r.Some? ==> r.value.md.d == d && r.value.md.text == [] && r.value.Apart()
    ensures r.Some? ==> fresh(r.value) && fresh(r.value.md) && fresh(r.value.ipad) && fresh(r.value.opad)
  {
    var md := new Md(d);
    if md.d.block < 2 {
      return None;
    }
    var context := new Context(md);
    return Some(context);
  }

  datatype Codes = Refused | KeyOverruns | Codes(first: seq<Byte>, second: seq<Byte>)

  // Key once, take in two messages in any chunks with a reset between them: both codes are right.
  method TwoMessages(d: Digest, key: seq<Byte>, first: seq<seq<Byte>>, second: seq<seq<Byte>>) returns (r: Codes)
    requires Sized(d)
    ensures r == if d.block < 2 then Refused
                 else if !KeyFits(d, key) then KeyOverruns
                 else Codes(Hmac(d, key, Concat(first)), Hmac(d, key, Concat(second)))
  {
    var found := Find(d);
    if found.None? {
      return Refused;
    }
    var context := found.value;
    var fits := context.Init(key);
    if !fits {
      return KeyOverruns;
    }
    TakeIn(context, first, key);
    var mac1 := context.Finish(key, Concat(first));
    context.Reset(key);
    TakeIn(context, second, key);
    var mac2 := context.Finish(key, Concat(second));
    return Codes(mac1, mac2);
  }

  method TakeIn(context: Context, chunks: seq<seq<Byte>>, ghost key: seq<Byte>)
    requires context.Holds(key, [])
    modifies context.md
    ensures context.Holds(key, Concat(chunks))
  {
    for i := 0 to |chunks|
      invariant context.Holds(key, Concat(chunks[..i]))
    {
      assert chunks[..i + 1][..i] == chunks[..i];
      context.Update(chunks[i], key, Concat(chunks[..i]));
    }
    assert chunks[..|chunks|] == chunks;
  }

  // ---------------------------------------------------------------- the SHA-1 object

  const SHA1 := Digest(text => S.Sha1(text), 64, 20)

  // The SHA-1 context has taken in what the digest object has.
  ghost predicate Same(md: Md, sha: S.Context)
    reads md, sha, sha.m
  {
    md.d == SHA1 && sha.Holds(md.text)
  }

  // Every operation keeps the two alike, and they give the same digest.
  method ResetBoth(md: Md, sha: S.Context)
    requires md.d == SHA1 && sha.m.Length == 64
    modifies md, sha, sha.m
    ensures Same(md, sha)
  {
    md.Reset();
    sha.Reset();
  }

  method UpdateBoth(md: Md, sha: S.Context, data: seq<Byte>)
    requires Same(md, sha)
    modifies md, sha, sha.m
    ensures Same(md, sha)
  {
    sha.Loop(data, md.text);
    md.Update(data);
  }

  method FinishBoth(md: Md, sha: S.Context) returns (out: seq<Byte>, digest: seq<Byte>)
    requires Same(md, sha)
    modifies md, sha, sha.m
    ensures out == digest && |out| == SHA1.result
  {
    digest := sha.Result(md.text);
    out := md.Finish();
  }

  // SHA-1 is never refused and every key fits.
  method Sha1Codes(key: seq<Byte>, first: seq<seq<Byte>>, second: seq<seq<Byte>>) returns (mac1: seq<Byte>, mac2: seq<Byte>)
    ensures Sized(SHA1) && KeyFits(SHA1, key)
    ensures mac1 == Hmac(SHA1, key, Concat(first)) && mac2 == Hmac(SHA1, key, Concat(second))
    ensures |mac1| == |mac2| == 20
  {
    var r := TwoMessages(SHA1, key, first, second);
    mac1, mac2 := r.first, r.second;
  }
}

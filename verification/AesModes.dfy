/**
 CBC encryption and decryption of sample/aes.c, in place on a buffer, with the context's
 initialisation vector updated for the next call.
 */
module AesModes {
  import opened AesTables
  import opened AesBlock

  class AesCtx {
    const roundKey: RoundKeys
    const iv: array<bv8>

    ghost predicate Valid() { iv.Length == 16 }

    constructor (roundKey: RoundKeys, iv: Block)
      ensures Valid() && fresh(this.iv) && this.roundKey == roundKey && this.iv[..] == iv
    {
      this.roundKey := roundKey;
      var a := new bv8[16];
      for i := 0 to 16
        invariant forall k :: 0 <= k < i ==> a[k] == iv[k]
      {
        a[i] := iv[i];
      }
      this.iv := a;
    }
  }

  // AES_ctx_set_iv, and the memcpy of one block in general.
  method CopyBlock(to: array<bv8>, b: Block)
    requires to.Length == 16
    modifies to
    ensures to[..] == b
  {
    for i := 0 to 16
      invariant forall k :: 0 <= k < i ==> to[k] == b[k]
    {
      to[i] := b[i];
    }
  }

  // ---- CBC ----

  ghost predicate Whole(s: seq<bv8>) { |s| % 16 == 0 }

  // Section 6.2 of NIST SP 800-38A.
  ghost function CbcEncrypt(t: Steps, rk: RoundKeys, iv: Block, s: seq<bv8>): (r: seq<bv8>)
    requires Whole(s)
    ensures |r| == |s|
    decreases |s|
  {
    if s == [] then [] else
    var c := Cipher(t, XorBlock(s[..16], iv), rk);
    c + CbcEncrypt(t, rk, c, s[16..])
  }

  ghost function CbcDecrypt(t: Steps, rk: RoundKeys, iv: Block, s: seq<bv8>): (r: seq<bv8>)
    requires Whole(s)
    ensures |r| == |s|
    decreases |s|
  {
    if s == [] then [] else XorBlock(InvCipher(t, s[..16], rk), iv) + CbcDecrypt(t, rk, s[..16], s[16..])
  }

  // The vector kept for the next call: the last ciphertext block.
  ghost function NextIv(iv: Block, cipher: seq<bv8>): Block
    requires Whole(cipher)
  { if cipher == [] then iv else cipher[|cipher| - 16..] }

  // Decrypting from the same initialisation vector undoes encrypting, for every whole number of blocks.
  lemma {:induction false} CbcRoundTrip(t: Steps, rk: RoundKeys, iv: Block, s: seq<bv8>)
    requires Undoing(t) && Whole(s)
    ensures CbcDecrypt(t, rk, iv, CbcEncrypt(t, rk, iv, s)) == s
    decreases |s|
  {
    if s != [] {
      var (p, rest) := (s[..16], s[16..]);
      var c := Cipher(t, XorBlock(p, iv), rk);
      var e := CbcEncrypt(t, rk, iv, s);
      assert e[..16] == c && e[16..] == CbcEncrypt(t, rk, c, rest);
      InvCipherUndoes(t, XorBlock(p, iv), rk);
      XorTwice(p, iv);
      CbcRoundTrip(t, rk, c, rest);
      assert s == p + rest;
    }
  }

  // XOR 16 bytes of buf with 16 bytes of another array, or of an earlier place in the same one.
  method XorWithIv(buf: array<bv8>, at: nat, iv: array<bv8>, ivAt: nat)
    requires at + 16 <= buf.Length && ivAt + 16 <= iv.Length && (iv == buf ==> ivAt + 16 <= at)
    modifies buf
    ensures BlockAt(buf, at) == XorBlock(old(BlockAt(buf, at)), old(BlockAt(iv, ivAt))) && OnlyBlock(buf, at)
  {
    ghost var (b, v) := (BlockAt(buf, at), BlockAt(iv, ivAt));
    for i := 0 to 16
      invariant forall k :: 0 <= k < 16 ==> BlockAt(buf, at)[k] == if k < i then Xor(b[k], v[k]) else b[k]
      invariant OnlyBlock(buf, at)
    {
      var x := GetByte(buf, at, i);
      assert iv[ivAt + i] == v[i];
      PutByte(buf, at, i, Xor(x, iv[ivAt + i]));
    }
  }

  // One block of CBC encryption.
  method CbcBlock(rk: RoundKeys, buf: array<bv8>, at: nat, iv: array<bv8>, ivAt: nat)
    requires at + 16 <= buf.Length && ivAt + 16 <= iv.Length && (iv == buf ==> ivAt + 16 <= at)
    modifies buf
    ensures BlockAt(buf, at) == Cipher(Aes(), XorBlock(old(BlockAt(buf, at)), old(BlockAt(iv, ivAt))), rk)
    ensures OnlyBlock(buf, at)
  {
    XorWithIv(buf, at, iv, ivAt);
    CipherInPlace(buf, at, rk);
  }

  // What is encrypted up to i and still to be encrypted from i on.
  ghost predicate Encrypting(t: Steps, rk: RoundKeys, all: seq<bv8>, done: seq<bv8>, iv: Block, todo: seq<bv8>) {
    Whole(todo) && all == done + CbcEncrypt(t, rk, iv, todo)
  }

  lemma EncryptNext(t: Steps, rk: RoundKeys, all: seq<bv8>, done: seq<bv8>, iv: Block, p: Block, rest: seq<bv8>)
    requires Encrypting(t, rk, all, done, iv, p + rest)
    ensures var c := Cipher(t, XorBlock(p, iv), rk); Encrypting(t, rk, all, done + c, c, rest)
  {
    var c := Cipher(t, XorBlock(p, iv), rk);
    assert (p + rest)[..16] == p && (p + rest)[16..] == rest;
    assert (done + c) + CbcEncrypt(t, rk, c, rest) == done + (c + CbcEncrypt(t, rk, c, rest));
  }

  // Two contents of a buffer that differ only in the block at `at`.
  lemma AroundBlock(s: seq<bv8>, r: seq<bv8>, at: nat, length: nat)
    requires |s| == |r| && at + 16 <= length <= |s| && forall k :: 0 <= k < |s| && !(at <= k < at + 16) ==> r[k] == s[k]
    ensures r[..at + 16] == s[..at] + r[at..at + 16] && r[at + 16..length] == s[at + 16..length]
    ensures r[length..] == s[length..]
  {
  }

  lemma SplitBlock(s: seq<bv8>, at: nat, length: nat)
    requires at + 16 <= length <= |s|
    ensures s[at..length] == s[at..at + 16] + s[at + 16..length]
  {
  }

  // Slices of the array and of its contents.
  lemma SameSlices(buf: array<bv8>, s: seq<bv8>, at: nat, length: nat)
    requires buf[..] == s && at + 16 <= length <= buf.Length
    ensures buf[..at] == s[..at] && buf[at..length] == s[at..length] && buf[at..at + 16] == s[at..at + 16]
    ensures buf[..at + 16] == s[..at + 16] && buf[at + 16..length] == s[at + 16..length] && buf[length..] == s[length..]
  {
  }

  // One round of the encryption loop.
  method EncryptStep(rk: RoundKeys, buf: array<bv8>, at: nat, length: nat, iv: array<bv8>, ivAt: nat,
                     ghost all: seq<bv8>)
    requires at + 16 <= length <= buf.Length && ivAt + 16 <= iv.Length && (iv == buf ==> ivAt + 16 <= at)
    requires Encrypting(Aes(), rk, all, buf[..at], BlockAt(iv, ivAt), buf[at..length])
    modifies buf
    ensures Encrypting(Aes(), rk, all, buf[..at + 16], BlockAt(buf, at), buf[at + 16..length])
    ensures buf[length..] == old(buf[length..])
  {
    ghost var s := buf[..];
    SplitBlock(s, at, length);
    SameSlices(buf, s, at, length);
    EncryptNext(Aes(), rk, all, buf[..at], BlockAt(iv, ivAt), BlockAt(buf, at), buf[at + 16..length]);
    CbcBlock(rk, buf, at, iv, ivAt);
    AroundBlock(s, buf[..], at, length);
    SameSlices(buf, buf[..], at, length);
  }

  // The encryption loop; the vector moves from the context into the buffer.
  method EncryptAll(ctx: AesCtx, buf: array<bv8>, length: nat, ghost all: seq<bv8>)
    returns (iv: array<bv8>, ivAt: nat)
    requires ctx.Valid() && length <= buf.Length && length % 16 == 0 && buf != ctx.iv
    requires Encrypting(Aes(), ctx.roundKey, all, [], ctx.iv[..], buf[..length])
    modifies buf
    ensures buf[..length] == all && buf[length..] == old(buf[length..])
    ensures if length == 0 then iv == ctx.iv && ivAt == 0 else iv == buf && ivAt == length - 16
  {
    var i: nat := 0;
    iv, ivAt := ctx.iv, 0;
    assert buf[..0] == [] && buf[0..length] == buf[..length] && iv[0..16] == ctx.iv[..];
    while i < length
      invariant i <= length && i % 16 == 0 && buf[length..] == old(buf[length..])
      invariant if i == 0 then iv == ctx.iv && ivAt == 0 else iv == buf && ivAt == i - 16
      invariant Encrypting(Aes(), ctx.roundKey, all, buf[..i], BlockAt(iv, ivAt), buf[i..length])
    {
      EncryptStep(ctx.roundKey, buf, i, length, iv, ivAt, all);
      iv, ivAt := buf, i;
      i := i + 16;
    }
    EncryptedAll(Aes(), ctx.roundKey, all, buf[..length], BlockAt(iv, ivAt));
  }

  // AES_CBC_encrypt_buffer on the first `length` bytes.
  method CbcEncryptBuffer(ctx: AesCtx, buf: array<bv8>, length: nat)
    requires ctx.Valid() && length <= buf.Length && length % 16 == 0 && buf != ctx.iv
    modifies buf, ctx.iv
    ensures buf[..length] == CbcEncrypt(Aes(), ctx.roundKey, old(ctx.iv[..]), old(buf[..length]))
    ensures buf[length..] == old(buf[length..])
    ensures ctx.iv[..] == NextIv(old(ctx.iv[..]), buf[..length])
  {
    ghost var all := CbcEncrypt(Aes(), ctx.roundKey, ctx.iv[..], buf[..length]);
    assert [] + all == all;
    var iv, ivAt := EncryptAll(ctx, buf, length, all);
    var last: Block := iv[ivAt..ivAt + 16];
    CopyBlock(ctx.iv, last);
  }

  lemma EncryptedAll(t: Steps, rk: RoundKeys, all: seq<bv8>, done: seq<bv8>, iv: Block)
    ensures Encrypting(t, rk, all, done, iv, []) ==> done == all
  {
  }

  ghost predicate Decrypting(t: Steps, rk: RoundKeys, all: seq<bv8>, done: seq<bv8>, iv: Block, todo: seq<bv8>) {
    Whole(todo) && all == done + CbcDecrypt(t, rk, iv, todo)
  }

  lemma DecryptNext(t: Steps, rk: RoundKeys, all: seq<bv8>, done: seq<bv8>, iv: Block, c: Block, rest: seq<bv8>)
    requires Decrypting(t, rk, all, done, iv, c + rest)
    ensures Decrypting(t, rk, all, done + XorBlock(InvCipher(t, c, rk), iv), c, rest)
  {
    var p := XorBlock(InvCipher(t, c, rk), iv);
    assert (c + rest)[..16] == c && (c + rest)[16..] == rest;
    assert (done + p) + CbcDecrypt(t, rk, c, rest) == done + (p + CbcDecrypt(t, rk, c, rest));
  }

  // One round of the decryption loop.
  method DecryptStep(rk: RoundKeys, buf: array<bv8>, at: nat, length: nat, iv: array<bv8>, ghost all: seq<bv8>)
    requires at + 16 <= length <= buf.Length && iv.Length == 16 && iv != buf
    requires Decrypting(Aes(), rk, all, buf[..at], iv[..], buf[at..length])
    modifies buf, iv
    ensures Decrypting(Aes(), rk, all, buf[..at + 16], iv[..], buf[at + 16..length])
    ensures buf[length..] == old(buf[length..]) && buf[at + 16..length] == old(buf[at + 16..length])
    ensures iv[..] == old(BlockAt(buf, at))
  {
    ghost var s := buf[..];
    SplitBlock(s, at, length);
    SameSlices(buf, s, at, length);
    assert iv[0..16] == iv[..];
    DecryptNext(Aes(), rk, all, buf[..at], BlockAt(iv, 0), BlockAt(buf, at), buf[at + 16..length]);
    var storeNextIv: Block := buf[at..at + 16];
    InvCipherInPlace(buf, at, rk);
    XorWithIv(buf, at, iv, 0);
    CopyBlock(iv, storeNextIv);
    AroundBlock(s, buf[..], at, length);
    SameSlices(buf, buf[..], at, length);
  }

  // AES_CBC_decrypt_buffer on the first `length` bytes.
  method CbcDecryptBuffer(ctx: AesCtx, buf: array<bv8>, length: nat)
    requires ctx.Valid() && length <= buf.Length && length % 16 == 0 && buf != ctx.iv
    modifies buf, ctx.iv
    ensures buf[..length] == CbcDecrypt(Aes(), ctx.roundKey, old(ctx.iv[..]), old(buf[..length]))
    ensures buf[length..] == old(buf[length..])
    ensures ctx.iv[..] == NextIv(old(ctx.iv[..]), old(buf[..length]))
  {
    ghost var (all, s) := (CbcDecrypt(Aes(), ctx.roundKey, ctx.iv[..], buf[..length]), buf[..length]);
    var i := 0;
    assert buf[..0] == [] && buf[0..length] == buf[..length];
    while i < length
      invariant i <= length && i % 16 == 0 && buf[length..] == old(buf[length..]) && buf[i..length] == s[i..]
      invariant ctx.iv[..] == if i == 0 then old(ctx.iv[..]) else s[i - 16..i]
      invariant Decrypting(Aes(), ctx.roundKey, all, buf[..i], ctx.iv[..], buf[i..length])
    {
      DecryptSlices(buf, s, i, length);
      DecryptStep(ctx.roundKey, buf, i, length, ctx.iv, all);
      i := i + 16;
    }
    DecryptedAll(Aes(), ctx.roundKey, all, buf[..length], ctx.iv[..]);
  }

  lemma DecryptSlices(buf: array<bv8>, s: seq<bv8>, i: nat, length: nat)
    requires i + 16 <= length == |s| <= buf.Length && buf[i..length] == s[i..]
    ensures buf[i + 16..length] == s[i + 16..] && buf[i..i + 16] == s[i..i + 16]
  {
    assert buf[i + 16..length] == buf[i..length][16..] && buf[i..i + 16] == buf[i..length][..16];
  }

  lemma DecryptedAll(t: Steps, rk: RoundKeys, all: seq<bv8>, done: seq<bv8>, iv: Block)
    ensures Decrypting(t, rk, all, done, iv, []) ==> done == all
  {
  }
}

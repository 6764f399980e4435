/**
 AES_CTR_xcrypt_buffer of sample/aes.c: each byte is XORed with a byte of the encrypted counter, and
 the initialisation vector counts the blocks started.
 */
module AesCtr {
  import opened Division
  import Bytes
  import opened AesTables
  import opened AesBlock
  import opened AesModes

  // ---- the counter ----

  // The increment: trailing 255s become 0, the byte before them goes up by one.
  function Increment(s: seq<bv8>): (r: seq<bv8>)
    ensures |r| == |s|
  {
    if s == [] then []
    else if s[|s| - 1] == 255 then Increment(s[..|s| - 1]) + [0]
    else s[..|s| - 1] + [s[|s| - 1] + 1]
  }

  // The big-endian value of a byte string.
  function Value(s: seq<bv8>): nat { if s == [] then 0 else 256 * Value(s[..|s| - 1]) + s[|s| - 1] as nat }

  lemma ByteRange(x: bv8)
    ensures x as nat < 256 && (x == 255 <==> x as nat == 255)
    ensures x != 255 ==> (x + 1) as nat == x as nat + 1
  {
  }

  lemma {:induction false} ValueBound(s: seq<bv8>)
    ensures Value(s) < Bytes.Pow256(|s|)
  {
    if s != [] {
      ValueBound(s[..|s| - 1]);
      ByteRange(s[|s| - 1]);
    }
  }

  // The increment adds one, modulo the number of values (appendix B.1 of NIST SP 800-38A).
  lemma {:induction false} IncrementAddsOne(s: seq<bv8>)
    ensures Value(Increment(s)) == (Value(s) + 1) % Bytes.Pow256(|s|)
  {
    if s != [] {
      var (front, x) := (s[..|s| - 1], s[|s| - 1]);
      ByteRange(x);
      ValueBound(front);
      if x == 255 {
        IncrementAddsOne(front);
        CarriedValue(s, front);
        Carry(Value(front), Value(Increment(front)), Bytes.Pow256(|front|), Value(s) + 1, Bytes.Pow256(|s|));
      } else {
        RaisedValue(s, front, x);
        NoCarry(Value(front), x as nat, Bytes.Pow256(|front|), Value(s) + 1, Bytes.Pow256(|s|));
      }
    }
  }

  lemma CarriedValue(s: seq<bv8>, front: seq<bv8>)
    requires s != [] && front == s[..|s| - 1] && s[|s| - 1] == 255
    ensures Value(Increment(s)) == 256 * Value(Increment(front)) + 0
  {
    var r := Increment(s);
    assert r[..|r| - 1] == Increment(front) && r[|r| - 1] == 0;
    ZeroByte();
  }

  lemma RaisedValue(s: seq<bv8>, front: seq<bv8>, x: bv8)
    requires s != [] && front == s[..|s| - 1] && x == s[|s| - 1] && x != 255
    ensures Value(Increment(s)) == 256 * Value(front) + (x as nat + 1)
  {
    var r := Increment(s);
    ByteRange(x);
    assert r[..|r| - 1] == front && r[|r| - 1] == x + 1;
  }

  lemma Carry(v: nat, w: nat, p: nat, t: nat, q: nat)
    requires v < p && w == (v + 1) % p && t == 256 * v + 256 && q == 256 * p
    ensures 256 * w + 0 == t % q
  {
    Scaled(v + 1, p);
  }

  lemma NoCarry(v: nat, x: nat, p: nat, t: nat, q: nat)
    requires v < p && x < 255 && t == 256 * v + x + 1 && q == 256 * p
    ensures 256 * v + (x + 1) == t % q
  {
    DivModUnique(t, q, 0, t);
  }

  lemma ZeroByte()
    ensures 0 as bv8 as nat == 0
  {
  }

  lemma Scaled(v: nat, p: nat)
    requires 0 < p && v <= p
    ensures 256 * (v % p) == (256 * v) % (256 * p)
  {
    var m := 256 * p;
    if v < p {
      DivModUnique(v, p, 0, v);
      DivModUnique(256 * v, m, 0, 256 * v);
    } else {
      DivModUnique(v, p, 1, 0);
      DivModUnique(256 * v, m, 1, 0);
    }
  }

  // The counter after n blocks.
  function Counter(iv: Block, n: nat): Block
    decreases n
  { if n == 0 then iv else Increment(Counter(iv, n - 1)) }

  lemma {:induction false} CounterAdds(iv: Block, n: nat, m: nat)
    requires m == Bytes.Pow256(|iv|)
    ensures Value(Counter(iv, n)) == (Value(iv) + n) % m
    decreases n
  {
    if n == 0 {
      CounterStart(iv, n, m);
    } else {
      CounterAdds(iv, n - 1, m);
      CounterStep(Counter(iv, n - 1), Value(iv) + (n - 1), Value(iv) + n, m);
    }
  }

  lemma CounterStart(iv: Block, n: nat, m: nat)
    requires m == Bytes.Pow256(|iv|) && n == 0
    ensures Value(Counter(iv, n)) == (Value(iv) + n) % m
  {
    ValueBound(iv);
    SmallMod(Value(iv), m);
  }

  lemma CounterStep(c: Block, v: nat, t: nat, m: nat)
    requires m == Bytes.Pow256(|c|) && t == v + 1 && Value(c) == v % m
    ensures Value(Increment(c)) == t % m
  {
    IncrementAddsOne(c);
    NextValue(v, t, m, Value(c), Value(Increment(c)));
  }

  lemma SmallMod(v: nat, m: nat)
    requires v < m
    ensures v % m == v
  {
    DivModUnique(v, m, 0, v);
  }

  lemma NextValue(v: nat, t: nat, m: nat, before: nat, after: nat)
    requires m > 0 && t == v + 1 && before == v % m && after == (before + 1) % m
    ensures after == t % m
  {
    ModAddCancel(v, 1, m);
  }

  // The vector is a 128-bit big-endian counter.
  lemma CounterValue(iv: Block, n: nat)
    ensures Value(Counter(iv, n)) == (Value(iv) + n) % Bytes.Pow256(16)
    ensures Bytes.Pow256(16) == 0x1_0000_0000_0000_0000_0000_0000_0000_0000
  {
    CounterAdds(iv, n, Bytes.Pow256(|iv|));
    assert Bytes.Pow256(4) == 0x1_0000_0000;
    assert Bytes.Pow256(8) == 0x1_0000_0000_0000_0000;
    assert Bytes.Pow256(12) == 0x1_0000_0000_0000_0000_0000_0000;
  }

  // ---- encryption ----

  // The byte of the key stream for byte i.
  ghost function KeyByte(t: Steps, rk: RoundKeys, iv: Block, i: nat): bv8 { Cipher(t, Counter(iv, i / 16), rk)[i % 16] }

  // Section 6.5 of NIST SP 800-38A.
  ghost function Ctr(t: Steps, rk: RoundKeys, iv: Block, s: seq<bv8>): (r: seq<bv8>)
    ensures |r| == |s|
  { seq(|s|, i requires 0 <= i < |s| => Xor(s[i], KeyByte(t, rk, iv, i))) }

  // The number of blocks started by n bytes.
  function BlocksFor(n: nat): nat { (n + 15) / 16 }

  // Applied twice from the same vector, CTR restores a buffer of any length.
  lemma CtrTwice(t: Steps, rk: RoundKeys, iv: Block, s: seq<bv8>)
    ensures Ctr(t, rk, iv, Ctr(t, rk, iv, s)) == s
  {
    forall i | 0 <= i < |s| ensures Ctr(t, rk, iv, Ctr(t, rk, iv, s))[i] == s[i] {
      XorCancels(s[i], KeyByte(t, rk, iv, i));
    }
  }

  // The bytes before bi are still to be incremented, the others are done.
  ghost predicate Carrying(s: seq<bv8>, r: seq<bv8>, bi: nat) {
    |r| == |s| && bi <= |s| && r[..bi] == s[..bi] && Increment(s) == Increment(s[..bi]) + r[bi..]
  }

  lemma CarryOn(s: seq<bv8>, r: seq<bv8>, bi: nat)
    requires Carrying(s, r, bi + 1) && bi < |s| && r[bi] == 255
    ensures Carrying(s, r[bi := 0], bi)
  {
    var r' := r[bi := 0];
    LastByte(s, r, bi);
    assert r'[bi..] == [0] + r[bi + 1..] && r'[..bi] == s[..bi];
    assert Increment(s[..bi + 1]) == Increment(s[..bi]) + [0];
    assert (Increment(s[..bi]) + [0]) + r[bi + 1..] == Increment(s[..bi]) + ([0] + r[bi + 1..]);
  }

  lemma CarryEnds(s: seq<bv8>, r: seq<bv8>, bi: nat)
    requires Carrying(s, r, bi + 1) && bi < |s| && r[bi] != 255
    ensures r[bi := r[bi] + 1] == Increment(s)
  {
    var r' := r[bi := r[bi] + 1];
    LastByte(s, r, bi);
    assert Increment(s[..bi + 1]) == s[..bi] + [r[bi] + 1];
    assert r' == (s[..bi] + [r[bi] + 1]) + r[bi + 1..];
  }

  lemma LastByte(s: seq<bv8>, r: seq<bv8>, bi: nat)
    requires |r| == |s| && bi < |s| && r[..bi + 1] == s[..bi + 1]
    ensures s[..bi + 1][..bi] == s[..bi] && s[..bi + 1][bi] == r[bi] && r[..bi] == s[..bi]
  {
    assert r[..bi + 1][bi] == r[bi] && r[..bi] == r[..bi + 1][..bi];
  }

  // The increment loop, in place.
  method IncrementInPlace(iv: array<bv8>)
    modifies iv
    ensures iv[..] == Increment(old(iv[..]))
  {
    ghost var s := iv[..];
    var bi: int := iv.Length - 1;
    assert s[..|s|] == s && Increment(s) == Increment(s) + [];
    while bi >= 0
      invariant -1 <= bi < iv.Length && Carrying(s, iv[..], bi + 1)
    {
      if iv[bi] == 255 {
        CarryOn(s, iv[..], bi);
        SetByte(iv, bi, 0);
        bi := bi - 1;
        continue;
      }
      CarryEnds(s, iv[..], bi);
      SetByte(iv, bi, iv[bi] + 1);
      return;
    }
  }

  // What the loop of AES_CTR_xcrypt_buffer keeps: i bytes done, the counter and the key stream of the current block.
  ghost predicate Streaming(t: Steps, rk: RoundKeys, iv0: Block, iv: Block, stream: Block, i: nat, bi: nat) {
    && iv == Counter(iv0, BlocksFor(i))
    && bi == (if i % 16 == 0 then 16 else i % 16)
    && (i % 16 != 0 ==> stream == Cipher(t, Counter(iv0, i / 16), rk))
  }

  // A fresh block of key stream: encrypt the counter, then increment it.
  method NextStream(ctx: AesCtx, buffer: array<bv8>)
    requires ctx.Valid() && buffer.Length == 16 && buffer != ctx.iv
    modifies buffer, ctx.iv
    ensures buffer[..] == Cipher(Aes(), old(ctx.iv[..]), ctx.roundKey) && ctx.iv[..] == Increment(old(ctx.iv[..]))
  {
    CopyBlock(buffer, ctx.iv[..]);
    assert buffer[0..16] == buffer[..];
    CipherInPlace(buffer, 0, ctx.roundKey);
    assert buffer[0..16] == buffer[..];
    IncrementInPlace(ctx.iv);
  }

  // Make sure that the key stream for byte i is there.
  method StreamFor(ctx: AesCtx, buffer: array<bv8>, i: nat, bi: nat, ghost iv0: Block) returns (bi': nat)
    requires ctx.Valid() && buffer.Length == 16 && buffer != ctx.iv
    requires Streaming(Aes(), ctx.roundKey, iv0, ctx.iv[..], buffer[..], i, bi)
    modifies buffer, ctx.iv
    ensures bi' == i % 16 && buffer[..] == Cipher(Aes(), Counter(iv0, i / 16), ctx.roundKey)
    ensures ctx.iv[..] == Counter(iv0, i / 16 + 1)
  {
    bi' := bi;
    BlocksStarted(i);
    if bi == 16 {
      NextStream(ctx, buffer);
      bi' := 0;
    }
  }

  lemma BlocksStarted(i: nat)
    ensures BlocksFor(i) == if i % 16 == 0 then i / 16 else i / 16 + 1
  {
  }

  // The buffer after i bytes.
  ghost predicate Partly(t: Steps, rk: RoundKeys, iv: Block, s: seq<bv8>, r: seq<bv8>, i: nat) {
    && |r| == |s| && i <= |s|
    && (forall k :: 0 <= k < i ==> r[k] == Ctr(t, rk, iv, s)[k]) && (forall k :: i <= k < |s| ==> r[k] == s[k])
  }

  lemma PartlyNext(t: Steps, rk: RoundKeys, iv: Block, s: seq<bv8>, r: seq<bv8>, i: nat, v: bv8)
    requires Partly(t, rk, iv, s, r, i) && i < |s| && v == Xor(r[i], KeyByte(t, rk, iv, i))
    ensures Partly(t, rk, iv, s, r[i := v], i + 1)
  {
  }

  // One round of the loop.
  method XcryptByte(ctx: AesCtx, buffer: array<bv8>, buf: array<bv8>, i: nat, bi: nat, ghost iv0: Block,
                    ghost s: seq<bv8>)
    returns (bi': nat)
    requires ctx.Valid() && buffer.Length == 16 && buffer != ctx.iv && buf != ctx.iv && buf != buffer && i < buf.Length
    requires Streaming(Aes(), ctx.roundKey, iv0, ctx.iv[..], buffer[..], i, bi)
    requires Partly(Aes(), ctx.roundKey, iv0, s, buf[..], i)
    modifies buffer, ctx.iv, buf
    ensures Streaming(Aes(), ctx.roundKey, iv0, ctx.iv[..], buffer[..], i + 1, bi')
    ensures Partly(Aes(), ctx.roundKey, iv0, s, buf[..], i + 1)
  {
    var b := StreamFor(ctx, buffer, i, bi, iv0);
    StreamByte(Aes(), ctx.roundKey, iv0, ctx.iv[..], buffer[..], i, b);
    PartlyNext(Aes(), ctx.roundKey, iv0, s, buf[..], i, Xor(buf[i], buffer[b]));
    SetByte(buf, i, Xor(buf[i], buffer[b]));
    bi' := b + 1;
  }

  /**
   AES_CTR_xcrypt_buffer: the whole buffer is XORed with the key stream, and the vector advances by
   the number of blocks started.
   */
  method CtrXcryptBuffer(ctx: AesCtx, buf: array<bv8>)
    requires ctx.Valid() && buf != ctx.iv
    modifies buf, ctx.iv
    ensures buf[..] == Ctr(Aes(), ctx.roundKey, old(ctx.iv[..]), old(buf[..]))
    ensures ctx.iv[..] == Counter(old(ctx.iv[..]), BlocksFor(buf.Length))
  {
    var buffer := new bv8[16](_ => 0);
    XcryptAll(ctx, buffer, buf, ctx.iv[..], buf[..]);
    AllDone(Aes(), ctx.roundKey, old(ctx.iv[..]), old(buf[..]), buf[..]);
  }

  method XcryptAll(ctx: AesCtx, buffer: array<bv8>, buf: array<bv8>, ghost iv0: Block, ghost s: seq<bv8>)
    requires ctx.Valid() && buffer.Length == 16 && buffer != ctx.iv && buf != ctx.iv && buf != buffer
    requires ctx.iv[..] == iv0 && buf[..] == s
    modifies buffer, ctx.iv, buf
    ensures ctx.iv[..] == Counter(iv0, BlocksFor(buf.Length))
    ensures Partly(Aes(), ctx.roundKey, iv0, s, buf[..], buf.Length)
  {
    var bi := 16;
    for i := 0 to buf.Length
      invariant Streaming(Aes(), ctx.roundKey, iv0, ctx.iv[..], buffer[..], i, bi)
      invariant Partly(Aes(), ctx.roundKey, iv0, s, buf[..], i)
    {
      bi := XcryptByte(ctx, buffer, buf, i, bi, iv0, s);
    }
  }

  method SetByte(buf: array<bv8>, i: nat, v: bv8)
    requires i < buf.Length
    modifies buf
    ensures buf[..] == old(buf[..])[i := v]
  {
    buf[i] := v;
  }

  lemma AllDone(t: Steps, rk: RoundKeys, iv: Block, s: seq<bv8>, r: seq<bv8>)
    requires Partly(t, rk, iv, s, r, |s|)
    ensures r == Ctr(t, rk, iv, s)
  {
  }

  lemma StreamByte(t: Steps, rk: RoundKeys, iv0: Block, iv: Block, stream: Block, i: nat, bi: nat)
    requires bi == i % 16 && stream == Cipher(t, Counter(iv0, i / 16), rk) && iv == Counter(iv0, i / 16 + 1)
    ensures stream[bi] == KeyByte(t, rk, iv0, i) && Streaming(t, rk, iv0, iv, stream, i + 1, bi + 1)
  {
    NextByte(i);
  }

  lemma NextByte(i: nat)
    ensures BlocksFor(i + 1) == i / 16 + 1
    ensures if i % 16 == 15 then (i + 1) % 16 == 0 else (i + 1) % 16 == i % 16 + 1 && (i + 1) / 16 == i / 16
  {
  }
}

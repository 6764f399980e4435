/**
 KeyExpansion and test_main of sample/aes.c: the sample pads its input (section 6.3 of RFC 5652),
 encrypts and decrypts it in CBC mode, strips the padding and returns the input.
 */
module AesSample {
  import opened AesTables
  import opened AesBlock
  import opened AesModes

  // ---- the key schedule ----

  function Rcon(i: nat): bv8 {
    if i == 1 then 0x01 else if i == 2 then 0x02 else if i == 3 then 0x04 else if i == 4 then 0x08 else if i
      == 5 then 0x10
    else if i == 6 then 0x20 else if i == 7 then 0x40 else if i == 8 then 0x80 else if i == 9 then 0x1b else if i
      == 10 then 0x36 else 0x8d
  }

  function XorWord(x: Column, y: Column): Column { Column(Xor(x.a, y.a), Xor(x.b, y.b), Xor(x.c, y.c), Xor(x.d, y.d)) }

  // RotWord, SubWord and the round constant.
  function Turned(sub: bv8 -> bv8, w: Column, i: nat): Column
  { Column(Xor(sub(w.b), Rcon(i)), sub(w.c), sub(w.d), sub(w.a)) }

  // Word i of the schedule (section 5.2 of FIPS 197).
  ghost function KeyWord(sub: bv8 -> bv8, key: Block, i: nat): Column
    decreases i
  {
    if i < 4 then ColumnOf(key, i)
    else
      var prev := KeyWord(sub, key, i - 1);
      XorWord(KeyWord(sub, key, i - 4), if i % 4 == 0 then Turned(sub, prev, i / 4) else prev)
  }

  // Word i of a byte string.
  function WordAt(s: seq<bv8>, i: nat): Column
    requires 4 * i + 4 <= |s|
  { Column(s[4 * i], s[4 * i + 1], s[4 * i + 2], s[4 * i + 3]) }

  ghost predicate Words(sub: bv8 -> bv8, key: Block, rk: seq<bv8>, n: nat) {
    4 * n <= |rk| && forall i :: 0 <= i < n ==> WordAt(rk, i) == KeyWord(sub, key, i)
  }

  method SetWord(rk: array<bv8>, i: nat, w: Column)
    requires 4 * i + 4 <= rk.Length
    modifies rk
    ensures rk[..] == old(rk[..])[4 * i := w.a][4 * i + 1 := w.b][4 * i + 2 := w.c][4 * i + 3 := w.d]
  {
    rk[4 * i] := w.a;
    rk[4 * i + 1] := w.b;
    rk[4 * i + 2] := w.c;
    rk[4 * i + 3] := w.d;
  }

  lemma WordsNext(sub: bv8 -> bv8, key: Block, s: seq<bv8>, n: nat, w: Column)
    requires Words(sub, key, s, n) && 4 * n + 4 <= |s| && w == KeyWord(sub, key, n)
    ensures Words(sub, key, s[4 * n := w.a][4 * n + 1 := w.b][4 * n + 2 := w.c][4 * n + 3 := w.d], n + 1)
  {
    var r := s[4 * n := w.a][4 * n + 1 := w.b][4 * n + 2 := w.c][4 * n + 3 := w.d];
    forall i | 0 <= i < n + 1 ensures WordAt(r, i) == KeyWord(sub, key, i) {
      if i < n { assert WordAt(r, i) == WordAt(s, i); }
    }
  }

  method GetWord(rk: array<bv8>, i: nat) returns (w: Column)
    requires 4 * i + 4 <= rk.Length
    ensures w == WordAt(rk[..], i)
  {
    w := Column(rk[4 * i], rk[4 * i + 1], rk[4 * i + 2], rk[4 * i + 3]);
  }

  method KeyExpansion(sub: bv8 -> bv8, key: Block) returns (roundKey: RoundKeys)
    ensures Words(sub, key, roundKey, 44)
  {
    var rk := new bv8[176](_ => 0);
    for i := 0 to 4
      invariant Words(sub, key, rk[..], i)
    {
      WordsNext(sub, key, rk[..], i, ColumnOf(key, i));
      SetWord(rk, i, ColumnOf(key, i));
    }
    for i := 4 to 44
      invariant Words(sub, key, rk[..], i)
    {
      var temp := GetWord(rk, i - 1);
      if i % 4 == 0 { temp := Turned(sub, temp, i / 4); }
      var back := GetWord(rk, i - 4);
      WordsNext(sub, key, rk[..], i, XorWord(back, temp));
      SetWord(rk, i, XorWord(back, temp));
    }
    roundKey := rk[..];
  }

  // ---- test_main ----

  function PaddingLength(n: nat): (p: nat)
    ensures 1 <= p <= 16 && (n + p) % 16 == 0
  { 16 - n % 16 }

  function Padded(s: seq<bv8>): seq<bv8> { s + seq(PaddingLength(|s|), _ => PaddingLength(|s|) as bv8) }

  lemma PaddingByte(p: nat)
    requires p <= 16
    ensures (p as bv8) as nat == p
  {
  }

  // The padded input in the 64-byte buffer.
  method Pad(input: seq<bv8>, buffer: array<bv8>)
    requires |input| <= 63 && buffer.Length == 64
    modifies buffer
    ensures |input| + PaddingLength(|input|) <= 64 && buffer[..|input| + PaddingLength(|input|)] == Padded(input)
  {
    var p := PaddingLength(|input|);
    for i := 0 to |input|
      invariant forall k :: 0 <= k < i ==> buffer[k] == input[k]
    {
      buffer[i] := input[i];
    }
    for i := |input| to |input| + p
      invariant forall k :: 0 <= k < |input| ==> buffer[k] == input[k]
      invariant forall k :: |input| <= k < i ==> buffer[k] == p as bv8
    {
      buffer[i] := p as bv8;
    }
  }

  // Encrypt, reset the vector, decrypt: the buffer is as before.
  method CbcThereAndBack(roundKey: RoundKeys, iv: Block, buffer: array<bv8>, length: nat)
    requires length <= buffer.Length && length % 16 == 0
    modifies buffer
    ensures buffer[..length] == old(buffer[..length])
  {
    var ctx := new AesCtx(roundKey, iv);
    CbcEncryptBuffer(ctx, buffer, length);
    CopyBlock(ctx.iv, iv);
    AesUndoing();
    CbcRoundTrip(Aes(), roundKey, iv, old(buffer[..length]));
    CbcDecryptBuffer(ctx, buffer, length);
  }

  const KEY: Block := [0x2b, 0x7e, 0x15, 0x16, 0x28, 0xae, 0xd2, 0xa6, 0xab, 0xf7, 0x15, 0x88, 0x09, 0xcf, 0x4f, 0x3c]
  const IV: Block := [0x00, 0x01, 0x02, 0x03, 0x04, 0x05, 0x06, 0x07, 0x08, 0x09, 0x0a, 0x0b, 0x0c, 0x0d, 0x0e, 0x0f]

  // The last byte of a padded string tells the length of the padding.
  lemma Unpadded(s: seq<bv8>)
    ensures var (n, p) := (|s|, PaddingLength(|s|));
      |Padded(s)| == n + p && n + p - Padded(s)[n + p - 1] as nat == n && Padded(s)[..n] == s
  {
    PaddingByte(PaddingLength(|s|));
  }

  // For every input of at most 63 bytes, test_main returns it NUL-terminated.
  method TestMain(input: seq<bv8>, result: array<bv8>)
    requires |input| <= 63 && result.Length == 64
    modifies result
    ensures result[..|input|] == input && result[|input|] == 0
  {
    var padded := |input| + PaddingLength(|input|);
    var buffer := new bv8[64](_ => 0);
    Pad(input, buffer);
    var roundKey := KeyExpansion(Sbox, KEY);
    CbcThereAndBack(roundKey, IV, buffer, padded);
    Strip(input, buffer, padded, result);
  }

  // Remove the padding, terminate the string and copy it out.
  method Strip(ghost input: seq<bv8>, buffer: array<bv8>, padded: nat, result: array<bv8>)
    requires |input| <= 63 && buffer.Length == result.Length == 64 && buffer != result
    requires |input| < padded <= 64 && buffer[..padded] == Padded(input)
    modifies buffer, result
    ensures result[..|input|] == input && result[|input|] == 0
  {
    Unpadded(input);
    assert buffer[padded - 1] == buffer[..padded][padded - 1];
    var unpadded := (padded - buffer[padded - 1] as nat) % 256;
    assert buffer[..unpadded] == buffer[..padded][..unpadded];
    buffer[unpadded] := 0;
    CopyOut(buffer, unpadded + 1, result);
    assert result[..unpadded] == result[..unpadded + 1][..unpadded];
    assert buffer[..unpadded] == buffer[..unpadded + 1][..unpadded];
    assert result[unpadded] == result[..unpadded + 1][unpadded];
  }

  method CopyOut(from: array<bv8>, n: nat, to: array<bv8>)
    requires n <= from.Length && n <= to.Length && from != to
    modifies to
    ensures to[..n] == from[..n]
  {
    for i := 0 to n
      invariant to[..i] == from[..i]
    {
      to[i] := from[i];
    }
  }
}

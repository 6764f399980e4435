/**
 Cipher and InvCipher of sample/aes.c on one 16-byte block: the rounds as functions on blocks, the
 proof that InvCipher undoes Cipher for every round-key array, and the in-place code of each step.
 The rounds are stated for any substitution and column steps; the in-place code is for AES's own, Aes().
 */
module AesBlock {
  import opened AesTables

  type Block = s: seq<bv8> | |s| == 16 witness [0, 0, 0, 0, 0, 0, 0, 0, 0, 0, 0, 0, 0, 0, 0, 0]

  type RoundKeys = s: seq<bv8> | |s| == 176 witness seq(176, _ => 0)

  datatype Steps = Steps(sub: bv8 -> bv8, inv: bv8 -> bv8, mix: Column -> Column, unmix: Column -> Column)

  function Aes(): Steps { Steps(Sbox, RSbox, MixedWith, UnmixColumn) }

  // The inverse steps undo the steps.
  ghost predicate Undoing(t: Steps) { (forall x :: t.inv(t.sub(x)) == x) && (forall c :: t.unmix(t.mix(c)) == c) }

  lemma AesUndoing()
    ensures Undoing(Aes())
  {
    forall x: bv8 ensures Aes().inv(Aes().sub(x)) == x { SboxInverse(x); }
    forall c: Column ensures Aes().unmix(Aes().mix(c)) == c { UnmixMixedWith(c); }
  }

  // ---- the round steps on blocks; byte 4 * c + r is row r of column c ----

  function XorBlock(s: Block, k: Block): Block { seq(16, i requires 0 <= i < 16 => Xor(s[i], k[i])) }

  function RoundKey(rk: RoundKeys, round: nat): Block
    requires round <= 10
  { rk[16 * round..16 * round + 16] }

  function AddRoundKey(s: Block, rk: RoundKeys, round: nat): Block
    requires round <= 10
  { XorBlock(s, RoundKey(rk, round)) }

  function MapBytes(f: bv8 -> bv8, s: Block): Block { seq(16, i requires 0 <= i < 16 => f(s[i])) }

  // Row r moves left, or back right, by r columns.
  function ShiftFrom(i: nat): (j: nat)
    requires i < 16
    ensures j < 16
  { 4 * ((i / 4 + i % 4) % 4) + i % 4 }

  function UnshiftFrom(i: nat): (j: nat)
    requires i < 16
    ensures j < 16
  { 4 * ((i / 4 + 4 - i % 4) % 4) + i % 4 }

  function ShiftRows(s: Block): Block { seq(16, i requires 0 <= i < 16 => s[ShiftFrom(i)]) }

  function UnshiftRows(s: Block): Block { seq(16, i requires 0 <= i < 16 => s[UnshiftFrom(i)]) }

  function ColumnOf(s: Block, c: nat): Column
    requires c < 4
  { Column(s[4 * c], s[4 * c + 1], s[4 * c + 2], s[4 * c + 3]) }

  function ByteOf(c: Column, r: nat): bv8
  { if r == 0 then c.a else if r == 1 then c.b else if r == 2 then c.c else c.d }

  function MapColumns(f: Column -> Column, s: Block): Block {
    seq(16, i requires 0 <= i < 16 => ByteOf(f(ColumnOf(s, i / 4)), i % 4))
  }

  // ---- each inverse step undoes its partner ----

  lemma XorTwice(s: Block, k: Block)
    ensures XorBlock(XorBlock(s, k), k) == s
  {
    forall i | 0 <= i < 16 ensures XorBlock(XorBlock(s, k), k)[i] == s[i] { XorCancels(s[i], k[i]); }
  }

  lemma UnshiftShift(s: Block)
    ensures UnshiftRows(ShiftRows(s)) == s
  {
    forall i | 0 <= i < 16 ensures ShiftFrom(UnshiftFrom(i)) == i { ShiftedBack(i / 4, i % 4); }
  }

  lemma ShiftedBack(c: nat, r: nat)
    requires c < 4 && r < 4
    ensures ShiftFrom(UnshiftFrom(4 * c + r)) == 4 * c + r
  {
    var d := if r <= c then c - r else c + 4 - r;
    RowPosition(c, r);
    RowPosition(d, r);
    ColumnBack(c, r, d);
  }

  // Byte r of column c.
  lemma RowPosition(c: nat, r: nat)
    requires c < 4 && r < 4
    ensures (4 * c + r) / 4 == c && (4 * c + r) % 4 == r && 4 * c + r < 16
  {
  }

  lemma ColumnBack(c: nat, r: nat, d: nat)
    requires c < 4 && r < 4 && d == if r <= c then c - r else c + 4 - r
    ensures (c + 4 - r) % 4 == d && (d + r) % 4 == c
  {
  }

  lemma UnmapMap(t: Steps, s: Block)
    requires Undoing(t)
    ensures MapBytes(t.inv, MapBytes(t.sub, s)) == s
  {
    forall i | 0 <= i < 16 ensures MapBytes(t.inv, MapBytes(t.sub, s))[i] == s[i] {
      assert MapBytes(t.sub, s)[i] == t.sub(s[i]);
    }
  }

  lemma MappedColumn(f: Column -> Column, s: Block, c: nat)
    requires c < 4
    ensures ColumnOf(MapColumns(f, s), c) == f(ColumnOf(s, c))
  {
    var m := MapColumns(f, s);
    assert m[4 * c] == ByteOf(f(ColumnOf(s, c)), 0) && m[4 * c + 1] == ByteOf(f(ColumnOf(s, c)), 1);
    assert m[4 * c + 2] == ByteOf(f(ColumnOf(s, c)), 2) && m[4 * c + 3] == ByteOf(f(ColumnOf(s, c)), 3);
  }

  lemma UnmixMixed(t: Steps, s: Block)
    requires Undoing(t)
    ensures MapColumns(t.unmix, MapColumns(t.mix, s)) == s
  {
    var m := MapColumns(t.mix, s);
    forall i | 0 <= i < 16 ensures MapColumns(t.unmix, m)[i] == s[i] {
      MappedColumn(t.mix, s, i / 4);
      ByteOfColumn(s, i);
    }
  }

  lemma ByteOfColumn(s: Block, i: nat)
    requires i < 16
    ensures ByteOf(ColumnOf(s, i / 4), i % 4) == s[i]
  {
  }

  // ---- the rounds ----

  function SubShift(t: Steps, s: Block): Block { ShiftRows(MapBytes(t.sub, s)) }

  function UnsubUnshift(t: Steps, s: Block): Block { MapBytes(t.inv, UnshiftRows(s)) }

  lemma UnsubUndoes(t: Steps, s: Block)
    requires Undoing(t)
    ensures UnsubUnshift(t, SubShift(t, s)) == s
  {
    UnshiftShift(MapBytes(t.sub, s));
    UnmapMap(t, s);
  }

  // The state after the key addition of round n.
  function Rounds(t: Steps, s: Block, rk: RoundKeys, n: nat): Block
    requires n < 10
    decreases n
  {
    if n == 0 then AddRoundKey(s, rk, 0)
    else AddRoundKey(MapColumns(t.mix, SubShift(t, Rounds(t, s, rk, n - 1))), rk, n)
  }

  // Section 5.1 of FIPS 197: ten rounds, the last one without mixing.
  function Cipher(t: Steps, s: Block, rk: RoundKeys): Block {
    AddRoundKey(SubShift(t, Rounds(t, s, rk, Nr(rk) - 1)), rk, Nr(rk))
  }

  // One round key per round, and one before the first.
  function Nr(rk: RoundKeys): (n: nat)
    ensures n == 10
  { |rk| / 16 - 1 }

  // The inverse rounds from round n down to round 0.
  function InvRounds(t: Steps, s: Block, rk: RoundKeys, n: nat): Block
    requires n < 10
    decreases n
  {
    var r := AddRoundKey(UnsubUnshift(t, s), rk, n);
    if n == 0 then r else InvRounds(t, MapColumns(t.unmix, r), rk, n - 1)
  }

  // Section 5.3 of FIPS 197.
  function InvCipher(t: Steps, s: Block, rk: RoundKeys): Block
  { InvRounds(t, AddRoundKey(s, rk, Nr(rk)), rk, Nr(rk) - 1) }

  lemma {:induction false} InvRoundsUndo(t: Steps, s: Block, rk: RoundKeys, n: nat)
    requires Undoing(t) && n < 10
    ensures InvRounds(t, SubShift(t, Rounds(t, s, rk, n)), rk, n) == s
    decreases n
  {
    UnsubUndoes(t, Rounds(t, s, rk, n));
    if n == 0 {
      XorTwice(s, RoundKey(rk, 0));
    } else {
      var m := SubShift(t, Rounds(t, s, rk, n - 1));
      XorTwice(MapColumns(t.mix, m), RoundKey(rk, n));
      UnmixMixed(t, m);
      InvRoundsUndo(t, s, rk, n - 1);
    }
  }

  // InvCipher undoes Cipher on every block, for every round-key array.
  lemma InvCipherUndoes(t: Steps, s: Block, rk: RoundKeys)
    requires Undoing(t)
    ensures InvCipher(t, Cipher(t, s, rk), rk) == s
  {
    var n := Nr(rk);
    XorTwice(SubShift(t, Rounds(t, s, rk, n - 1)), RoundKey(rk, n));
    InvRoundsUndo(t, s, rk, n - 1);
  }

  // ---- the steps in place, on the 16 bytes of buf from `at` ----

  // The block in the buffer.
  ghost function BlockAt(buf: array<bv8>, at: nat): Block
    reads buf
    requires at + 16 <= buf.Length
  { buf[at..at + 16] }

  // Only the block changed.
  twostate predicate OnlyBlock(buf: array<bv8>, at: nat)
    reads buf
  { forall k :: 0 <= k < buf.Length && !(at <= k < at + 16) ==> buf[k] == old(buf[k]) }

  method PutByte(buf: array<bv8>, at: nat, i: nat, v: bv8)
    requires at + 16 <= buf.Length && i < 16
    modifies buf
    ensures BlockAt(buf, at) == old(BlockAt(buf, at))[i := v] && OnlyBlock(buf, at)
  {
    buf[at + i] := v;
  }

  method GetByte(buf: array<bv8>, at: nat, i: nat) returns (v: bv8)
    requires at + 16 <= buf.Length && i < 16
    ensures v == BlockAt(buf, at)[i]
  {
    v := buf[at + i];
  }

  method AddRoundKeyInPlace(buf: array<bv8>, at: nat, rk: RoundKeys, round: nat)
    requires at + 16 <= buf.Length && round <= 10
    modifies buf
    ensures BlockAt(buf, at) == AddRoundKey(old(BlockAt(buf, at)), rk, round) && OnlyBlock(buf, at)
  {
    ghost var (b, key) := (BlockAt(buf, at), RoundKey(rk, round));
    for i := 0 to 4
      invariant forall k :: 0 <= k < 16 ==> BlockAt(buf, at)[k] == if k < 4 * i then Xor(b[k], key[k]) else b[k]
      invariant OnlyBlock(buf, at)
    {
      for j := 0 to 4
        invariant forall k :: 0 <= k < 16 ==> BlockAt(buf, at)[k] == if k < 4 * i + j then Xor(b[k], key[k]) else b[k]
        invariant OnlyBlock(buf, at)
      {
        var v := GetByte(buf, at, 4 * i + j);
        assert key[4 * i + j] == rk[round * 4 * 4 + i * 4 + j];
        PutByte(buf, at, 4 * i + j, Xor(v, rk[round * 4 * 4 + i * 4 + j]));
      }
    }
  }

  // SubBytes and InvSubBytes: row by row, each byte is looked up.
  method MapBytesInPlace(f: bv8 -> bv8, buf: array<bv8>, at: nat)
    requires at + 16 <= buf.Length
    modifies buf
    ensures BlockAt(buf, at) == MapBytes(f, old(BlockAt(buf, at))) && OnlyBlock(buf, at)
  {
    ghost var b := BlockAt(buf, at);
    for i := 0 to 4
      invariant forall k :: 0 <= k < 16 ==> BlockAt(buf, at)[k] == if k % 4 < i then f(b[k]) else b[k]
      invariant OnlyBlock(buf, at)
    {
      for j := 0 to 4
        invariant forall k :: 0 <= k < 16 ==>
          BlockAt(buf, at)[k] == if k % 4 < i || (k % 4 == i && k / 4 < j) then f(b[k]) else b[k]
        invariant OnlyBlock(buf, at)
      {
        var v := GetByte(buf, at, 4 * j + i);
        PutByte(buf, at, 4 * j + i, f(v));
      }
    }
  }

  // Positions i, j, k and l take the bytes of j, k, l and i.
  function Rotated(b: Block, i: nat, j: nat, k: nat, l: nat): Block
    requires i < 16 && j < 16 && k < 16 && l < 16
  { b[i := b[j]][j := b[k]][k := b[l]][l := b[i]] }

  function Swapped(b: Block, i: nat, j: nat): Block
    requires i < 16 && j < 16
  { b[i := b[j]][j := b[i]] }

  method RotateInPlace(buf: array<bv8>, at: nat, i: nat, j: nat, k: nat, l: nat)
    requires at + 16 <= buf.Length && i < 16 && j < 16 && k < 16 && l < 16
    requires i != j && i != k && i != l && j != k && j != l && k != l
    modifies buf
    ensures BlockAt(buf, at) == Rotated(old(BlockAt(buf, at)), i, j, k, l) && OnlyBlock(buf, at)
  {
    var temp := buf[at + i];
    buf[at + i] := buf[at + j];
    buf[at + j] := buf[at + k];
    buf[at + k] := buf[at + l];
    buf[at + l] := temp;
  }

  method SwapInPlace(buf: array<bv8>, at: nat, i: nat, j: nat)
    requires at + 16 <= buf.Length && i < 16 && j < 16
    modifies buf
    ensures BlockAt(buf, at) == Swapped(old(BlockAt(buf, at)), i, j) && OnlyBlock(buf, at)
  {
    var temp := buf[at + i];
    buf[at + i] := buf[at + j];
    buf[at + j] := temp;
  }

  lemma ShiftedRows(b: Block)
    ensures Rotated(Swapped(Swapped(Rotated(b, 1, 5, 9, 13), 2, 10), 6, 14), 3, 15, 11, 7) == ShiftRows(b)
  {
  }

  lemma UnshiftedRows(b: Block)
    ensures Rotated(Swapped(Swapped(Rotated(b, 13, 9, 5, 1), 2, 10), 6, 14), 3, 7, 11, 15) == UnshiftRows(b)
  {
  }

  method ShiftRowsInPlace(buf: array<bv8>, at: nat)
    requires at + 16 <= buf.Length
    modifies buf
    ensures BlockAt(buf, at) == ShiftRows(old(BlockAt(buf, at))) && OnlyBlock(buf, at)
  {
    ShiftedRows(BlockAt(buf, at));
    RotateInPlace(buf, at, 1, 5, 9, 13);
    SwapInPlace(buf, at, 2, 10);
    SwapInPlace(buf, at, 6, 14);
    RotateInPlace(buf, at, 3, 15, 11, 7);
  }

  method UnshiftRowsInPlace(buf: array<bv8>, at: nat)
    requires at + 16 <= buf.Length
    modifies buf
    ensures BlockAt(buf, at) == UnshiftRows(old(BlockAt(buf, at))) && OnlyBlock(buf, at)
  {
    UnshiftedRows(BlockAt(buf, at));
    RotateInPlace(buf, at, 13, 9, 5, 1);
    SwapInPlace(buf, at, 2, 10);
    SwapInPlace(buf, at, 6, 14);
    RotateInPlace(buf, at, 3, 7, 11, 15);
  }

  function PutColumn(b: Block, c: nat, s: Column): Block
    requires c < 4
  { b[4 * c := s.a][4 * c + 1 := s.b][4 * c + 2 := s.c][4 * c + 3 := s.d] }

  method GetColumn(buf: array<bv8>, at: nat, c: nat) returns (s: Column)
    requires at + 16 <= buf.Length && c < 4
    ensures s == ColumnOf(BlockAt(buf, at), c)
  {
    s := Column(buf[at + 4 * c], buf[at + 4 * c + 1], buf[at + 4 * c + 2], buf[at + 4 * c + 3]);
  }

  method SetColumn(buf: array<bv8>, at: nat, c: nat, s: Column)
    requires at + 16 <= buf.Length && c < 4
    modifies buf
    ensures BlockAt(buf, at) == PutColumn(old(BlockAt(buf, at)), c, s) && OnlyBlock(buf, at)
  {
    PutByte(buf, at, 4 * c, s.a);
    PutByte(buf, at, 4 * c + 1, s.b);
    PutByte(buf, at, 4 * c + 2, s.c);
    PutByte(buf, at, 4 * c + 3, s.d);
  }

  // The first n columns mapped.
  function PartlyMapped(f: Column -> Column, b: Block, n: nat): Block
    requires n <= 4
  { seq(16, i requires 0 <= i < 16 => if i / 4 < n then ByteOf(f(ColumnOf(b, i / 4)), i % 4) else b[i]) }

  lemma MapNext(f: Column -> Column, b: Block, n: nat)
    requires n < 4
    ensures ColumnOf(PartlyMapped(f, b, n), n) == ColumnOf(b, n)
    ensures PutColumn(PartlyMapped(f, b, n), n, f(ColumnOf(b, n))) == PartlyMapped(f, b, n + 1)
  {
    var (p, q) := (PutColumn(PartlyMapped(f, b, n), n, f(ColumnOf(b, n))), PartlyMapped(f, b, n + 1));
    forall i | 0 <= i < 16 ensures p[i] == q[i] {
      assert i / 4 == n ==> i == 4 * n || i == 4 * n + 1 || i == 4 * n + 2 || i == 4 * n + 3;
    }
  }

  // The loop body of MixColumns, statement by statement: the bytes of column c are replaced one after the other.
  method MixColumnInPlace(buf: array<bv8>, at: nat, c: nat)
    requires at + 16 <= buf.Length && c < 4
    modifies buf
    ensures BlockAt(buf, at) == PutColumn(old(BlockAt(buf, at)), c, MixedWith(ColumnOf(old(BlockAt(buf, at)), c)))
    ensures OnlyBlock(buf, at)
  {
    var t := buf[at + 4 * c];
    var all := Xor(Xor(Xor(buf[at + 4 * c], buf[at + 4 * c + 1]), buf[at + 4 * c + 2]), buf[at + 4 * c + 3]);
    MixOne(buf, at, 4 * c, buf[at + 4 * c + 1], all);
    MixOne(buf, at, 4 * c + 1, buf[at + 4 * c + 2], all);
    MixOne(buf, at, 4 * c + 2, buf[at + 4 * c + 3], all);
    MixOne(buf, at, 4 * c + 3, t, all);
  }

  // One line of it.
  method MixOne(buf: array<bv8>, at: nat, i: nat, next: bv8, all: bv8)
    requires at + 16 <= buf.Length && i < 16
    modifies buf
    ensures BlockAt(buf, at) == old(BlockAt(buf, at))[i := Xor(old(BlockAt(buf, at))[i],
                                                               Xor(Xtime(Xor(old(BlockAt(buf, at))[i], next)), all))]
    ensures OnlyBlock(buf, at)
  {
    var tm := Xor(buf[at + i], next);
    tm := Xtime(tm);
    buf[at + i] := Xor(buf[at + i], Xor(tm, all));
  }

  method MixColumnsInPlace(buf: array<bv8>, at: nat)
    requires at + 16 <= buf.Length
    modifies buf
    ensures BlockAt(buf, at) == MapColumns(Aes().mix, old(BlockAt(buf, at))) && OnlyBlock(buf, at)
  {
    ghost var b := BlockAt(buf, at);
    for i := 0 to 4
      invariant BlockAt(buf, at) == PartlyMapped(MixedWith, b, i) && OnlyBlock(buf, at)
    {
      MapNext(MixedWith, b, i);
      MixColumnInPlace(buf, at, i);
    }
  }

  // InvMixColumns reads a whole column before it writes it.
  method UnmixColumnsInPlace(buf: array<bv8>, at: nat)
    requires at + 16 <= buf.Length
    modifies buf
    ensures BlockAt(buf, at) == MapColumns(Aes().unmix, old(BlockAt(buf, at))) && OnlyBlock(buf, at)
  {
    ghost var b := BlockAt(buf, at);
    for i := 0 to 4
      invariant BlockAt(buf, at) == PartlyMapped(UnmixColumn, b, i) && OnlyBlock(buf, at)
    {
      MapNext(UnmixColumn, b, i);
      var s := GetColumn(buf, at, i);
      UnmixedWithIsUnmix(s);
      SetColumn(buf, at, i, UnmixedWith(s));
    }
  }

  // The rounds from `round` on, as the loop goes through them.
  function RoundsFrom(t: Steps, s: Block, rk: RoundKeys, round: nat): Block
    requires 0 < round <= 10
    decreases 10 - round
  {
    var r := SubShift(t, s);
    if round == 10 then AddRoundKey(r, rk, 10)
    else RoundsFrom(t, AddRoundKey(MapColumns(t.mix, r), rk, round), rk, round + 1)
  }

  lemma {:induction false} RoundsFromIsCipher(t: Steps, s: Block, rk: RoundKeys, round: nat)
    requires 0 < round <= 10
    ensures RoundsFrom(t, Rounds(t, s, rk, round - 1), rk, round) == Cipher(t, s, rk)
    decreases 10 - round
  {
    if round < 10 { RoundsFromIsCipher(t, s, rk, round + 1); }
  }

  // Cipher, in place.
  method CipherInPlace(buf: array<bv8>, at: nat, rk: RoundKeys)
    requires at + 16 <= buf.Length
    modifies buf
    ensures BlockAt(buf, at) == Cipher(Aes(), old(BlockAt(buf, at)), rk) && OnlyBlock(buf, at)
  {
    ghost var r := Cipher(Aes(), BlockAt(buf, at), rk);
    RoundsFromIsCipher(Aes(), BlockAt(buf, at), rk, 1);
    AddRoundKeyInPlace(buf, at, rk, 0);
    var round := 1;
    while true
      invariant 1 <= round <= 10 && OnlyBlock(buf, at)
      invariant RoundsFrom(Aes(), BlockAt(buf, at), rk, round) == r
      decreases 10 - round
    {
      MapBytesInPlace(Sbox, buf, at);
      ShiftRowsInPlace(buf, at);
      if round == 10 { break; }
      MixColumnsInPlace(buf, at);
      AddRoundKeyInPlace(buf, at, rk, round);
      round := round + 1;
    }
    AddRoundKeyInPlace(buf, at, rk, 10);
  }

  // InvCipher, in place.
  method InvCipherInPlace(buf: array<bv8>, at: nat, rk: RoundKeys)
    requires at + 16 <= buf.Length
    modifies buf
    ensures BlockAt(buf, at) == InvCipher(Aes(), old(BlockAt(buf, at)), rk) && OnlyBlock(buf, at)
  {
    ghost var r := InvCipher(Aes(), BlockAt(buf, at), rk);
    AddRoundKeyInPlace(buf, at, rk, 10);
    var round := 9;
    while true
      invariant 0 <= round <= 9 && OnlyBlock(buf, at)
      invariant InvRounds(Aes(), BlockAt(buf, at), rk, round) == r
      decreases round
    {
      UnshiftRowsInPlace(buf, at);
      MapBytesInPlace(RSbox, buf, at);
      AddRoundKeyInPlace(buf, at, rk, round);
      if round == 0 { break; }
      UnmixColumnsInPlace(buf, at);
      round := round - 1;
    }
  }
}

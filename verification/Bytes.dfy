/**
 Byte strings: little-endian numbers, and concatenations addressed by running offsets.
 */
module Bytes {
  type Byte = nat

  function Pow256(n: nat): (p: nat)
    ensures p > 0
  { if n == 0 then 1 else 256 * Pow256(n - 1) }

  // v as n little-endian bytes (higher bytes are dropped, as an integer cast does).
  function LE(v: nat, n: nat): (s: seq<Byte>)
    ensures |s| == n
    decreases n
  { if n == 0 then [] else [v % 256] + LE(v / 256, n - 1) }

  function FromLE(s: seq<Byte>): nat {
    if s == [] then 0 else s[0] + 256 * FromLE(s[1..])
  }

  lemma {:induction false} LERoundTrip(v: nat, n: nat)
    requires v < Pow256(n)
    ensures FromLE(LE(v, n)) == v
    decreases n
  {
    if n != 0 {
      LERoundTrip(v / 256, n - 1);
      assert LE(v, n)[1..] == LE(v / 256, n - 1);
    }
  }

  lemma Pow256Values()
    ensures Pow256(1) == 0x100 && Pow256(2) == 0x1_0000 && Pow256(4) == 0x1_0000_0000
    ensures Pow256(8) == 0x1_0000_0000_0000_0000
  {
    assert Pow256(3) == 0x100_0000;
    assert Pow256(5) == 256 * Pow256(4);
    assert Pow256(6) == 256 * Pow256(5);
    assert Pow256(7) == 256 * Pow256(6);
  }

  function Zeros(n: nat): (s: seq<Byte>)
    ensures |s| == n
  { seq(n, _ => 0) }

  // ---- packed structures: unsigned little-endian fields of given sizes, one after the other ----

  function Pack(sizes: seq<nat>, values: seq<nat>): (s: seq<Byte>)
    requires |sizes| == |values|
    ensures |s| == Sum(sizes)
  { if sizes == [] then [] else LE(values[0], sizes[0]) + Pack(sizes[1..], values[1..]) }

  function Sum(sizes: seq<nat>): nat { if sizes == [] then 0 else sizes[0] + Sum(sizes[1..]) }

  function Unpack(sizes: seq<nat>, s: seq<Byte>): (values: seq<nat>)
    requires Sum(sizes) <= |s|
    ensures |values| == |sizes|
  { if sizes == [] then [] else [FromLE(s[..sizes[0]])] + Unpack(sizes[1..], s[sizes[0]..]) }

  // The number of values of a field; fields of other sizes hold zero.
  function Limit(size: nat): (m: nat)
    ensures 0 < m <= Pow256(size)
  {
    Pow256Values();
    if size == 1 then 0x100 else if size == 2 then 0x1_0000 else if size == 4 then 0x1_0000_0000
    else if size == 8 then 0x1_0000_0000_0000_0000 else 1
  }

  // Each value fits its field.
  predicate Fit(sizes: seq<nat>, values: seq<nat>) {
    |sizes| == |values| && (sizes == [] || (values[0] < Limit(sizes[0]) && Fit(sizes[1..], values[1..])))
  }

  lemma {:induction false} FitAll(sizes: seq<nat>, values: seq<nat>)
    requires |sizes| == |values| && forall i :: 0 <= i < |sizes| ==> values[i] < Limit(sizes[i])
    ensures Fit(sizes, values)
  {
    if sizes != [] { FitAll(sizes[1..], values[1..]); }
  }

  lemma AppendAssoc(a: seq<Byte>, b: seq<Byte>, c: seq<Byte>)
    ensures (a + b) + c == a + (b + c)
  {
  }

  lemma FirstField(s: seq<Byte>, v: nat, n: nat, rest: seq<Byte>)
    requires s == LE(v, n) + rest && v < Pow256(n)
    ensures FromLE(s[..n]) == v && s[n..] == rest
  {
    LERoundTrip(v, n);
    assert s[..n] == LE(v, n);
  }

  lemma {:induction false} PackRoundTrip(sizes: seq<nat>, values: seq<nat>, rest: seq<Byte>)
    requires Fit(sizes, values)
    ensures Unpack(sizes, Pack(sizes, values) + rest) == values
  {
    if sizes != [] {
      var sizes', values' := sizes[1..], values[1..];
      PackRoundTrip(sizes', values', rest);
      var s, r := Pack(sizes, values) + rest, Pack(sizes', values') + rest;
      AppendAssoc(LE(values[0], sizes[0]), Pack(sizes', values'), rest);
      FirstField(s, values[0], sizes[0], r);
      assert values == [values[0]] + values';
    }
  }

  // ---- concatenation ----

  function Concat(parts: seq<seq<Byte>>): seq<Byte> {
    if parts == [] then [] else parts[0] + Concat(parts[1..])
  }

  // Where part i starts in the concatenation.
  function Offset(parts: seq<seq<Byte>>, i: nat): nat
    requires i <= |parts|
  { if i == 0 then 0 else |parts[0]| + Offset(parts[1..], i - 1) }

  lemma {:induction false} ConcatLength(parts: seq<seq<Byte>>)
    ensures |Concat(parts)| == Offset(parts, |parts|)
  {
    if parts != [] { ConcatLength(parts[1..]); }
  }

  lemma {:induction false} OffsetStep(parts: seq<seq<Byte>>, i: nat)
    requires i < |parts|
    ensures Offset(parts, i + 1) == Offset(parts, i) + |parts[i]|
    ensures Offset(parts, i + 1) <= |Concat(parts)|
  {
    if i == 0 {
      assert Offset(parts[1..], 0) == 0;
    } else {
      OffsetStep(parts[1..], i - 1);
    }
  }

  // Part i is found at its offset.
  lemma {:induction false} ConcatSlice(parts: seq<seq<Byte>>, i: nat)
    requires i < |parts|
    ensures Offset(parts, i) + |parts[i]| <= |Concat(parts)|
    ensures Concat(parts)[Offset(parts, i)..Offset(parts, i) + |parts[i]|] == parts[i]
  {
    if i == 0 {
    } else {
      ConcatSlice(parts[1..], i - 1);
      var (o, n) := (Offset(parts[1..], i - 1), |parts[i]|);
      assert Concat(parts)[|parts[0]| + o..|parts[0]| + o + n] == Concat(parts[1..])[o..o + n];
    }
  }

  lemma {:induction false} ConcatPush(parts: seq<seq<Byte>>, p: seq<Byte>)
    ensures Concat(parts + [p]) == Concat(parts) + p
  {
    if parts == [] {
      assert parts + [p] == [p] && [p][1..] == [];
    } else {
      assert (parts + [p])[1..] == parts[1..] + [p];
      ConcatPush(parts[1..], p);
    }
  }

  lemma {:induction false} ConcatAppend(a: seq<seq<Byte>>, b: seq<seq<Byte>>)
    ensures Concat(a + b) == Concat(a) + Concat(b)
  {
    if a == [] {
      assert a + b == b;
    } else {
      assert (a + b)[1..] == a[1..] + b;
      ConcatAppend(a[1..], b);
      AppendAssoc(a[0], Concat(a[1..]), Concat(b));
    }
  }

  lemma {:induction false} OffsetPush(parts: seq<seq<Byte>>, p: seq<Byte>, i: nat)
    requires i <= |parts|
    ensures Offset(parts + [p], i) == Offset(parts, i)
    decreases i
  {
    if i > 0 {
      assert (parts + [p])[1..] == parts[1..] + [p];
      OffsetPush(parts[1..], p, i - 1);
    }
  }

  // Parts of equal size sit at multiples of it.
  lemma {:induction false} OffsetUniform(parts: seq<seq<Byte>>, k: nat, i: nat)
    requires i <= |parts| && forall j :: 0 <= j < |parts| ==> |parts[j]| == k
    ensures Offset(parts, i) == k * i
    decreases i
  {
    if i > 0 {
      OffsetUniform(parts[1..], k, i - 1);
    }
  }
}

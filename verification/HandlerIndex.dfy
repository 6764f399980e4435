/**
 Handler numbering: OpcodeEngine::prefetch of src/OpcodeEngine.cpp files each opcode under a
 zero-padded key in the set of its width class; PreEncoder::prefetch of src/PreEncoder.cpp lists the
 five sets one after the other; handlerIndex finds an opcode's position in that list.
 */
module HandlerIndex {
  import opened Bytes
  import opened Search

  const INVALID: nat := 0xffff_ffff

  // ---- keys ----

  ghost predicate AreBytes(s: seq<Byte>) { forall i :: 0 <= i < |s| ==> s[i] < 256 }

  // The width class of an opcode, and the width of its key in bytes.
  function ClassOf(n: nat): (c: nat)
    ensures c < 5
  { if n == 1 then 0 else if n == 2 then 1 else if 3 <= n <= 4 then 2 else if 5 <= n <= 8 then 3 else 4 }

  function Width(c: nat): nat
  { if c == 0 then 1 else if c == 1 then 2 else if c == 2 then 4 else if c == 3 then 8 else 16 }

  // memcpy of at most 16 bytes into a zeroed integer.
  function KeyOf(b: seq<Byte>): nat { FromLE(if |b| > 16 then b[..16] else b) }

  lemma {:induction false} FromLEPadded(b: seq<Byte>, n: nat)
    ensures FromLE(b + Zeros(n)) == FromLE(b)
  {
    if b == [] {
      assert b + Zeros(n) == Zeros(n);
      FromLEZeros(n);
    } else {
      assert (b + Zeros(n))[1..] == b[1..] + Zeros(n);
      FromLEPadded(b[1..], n);
    }
  }

  lemma {:induction false} FromLEZeros(n: nat)
    ensures FromLE(Zeros(n)) == 0
  {
    if n > 0 {
      assert Zeros(n)[1..] == Zeros(n - 1);
      FromLEZeros(n - 1);
    }
  }

  lemma {:induction false} FromLEInjective(a: seq<Byte>, b: seq<Byte>)
    requires |a| == |b| && AreBytes(a) && AreBytes(b) && FromLE(a) == FromLE(b)
    ensures a == b
  {
    if a != [] {
      LowByte(a[0], b[0], FromLE(a[1..]), FromLE(b[1..]));
      FromLEInjective(a[1..], b[1..]);
      assert a == [a[0]] + a[1..] && b == [b[0]] + b[1..];
    }
  }

  lemma LowByte(x: nat, y: nat, p: nat, q: nat)
    requires x < 256 && y < 256 && x + 256 * p == y + 256 * q
    ensures x == y && p == q
  {
  }

  // Two opcodes share a key exactly when the longer is the shorter followed by zero bytes.
  lemma SameKey(a: seq<Byte>, b: seq<Byte>)
    requires |a| <= |b| <= 16 && AreBytes(a) && AreBytes(b)
    ensures KeyOf(a) == KeyOf(b) <==> b == a + Zeros(|b| - |a|)
  {
    var p := a + Zeros(|b| - |a|);
    FromLEPadded(a, |b| - |a|);
    if KeyOf(a) == KeyOf(b) { FromLEInjective(p, b); }
  }

  // No opcode of the same class continues another.
  ghost predicate PrefixFree(ops: set<seq<Byte>>) {
    forall a, b :: a in ops && b in ops && ClassOf(|a|) == ClassOf(|b|) && a <= b ==> a == b
  }

  ghost predicate Opcodes(ops: set<seq<Byte>>) { forall b :: b in ops ==> 1 <= |b| <= 16 && AreBytes(b) }

  // With prefix-free opcodes the key is injective within each class.
  lemma KeyInjective(ops: set<seq<Byte>>, a: seq<Byte>, b: seq<Byte>)
    requires Opcodes(ops) && PrefixFree(ops) && a in ops && b in ops
    requires ClassOf(|a|) == ClassOf(|b|) && KeyOf(a) == KeyOf(b)
    ensures a == b
  {
    if |a| <= |b| { SameKey(a, b); } else { SameKey(b, a); }
  }

  // The two-word comparison of 128-bit keys is the order of the numbers.
  datatype Var128 = Var128(low: nat, high: nat)

  predicate Less128(a: Var128, b: Var128) { if a.high != b.high then a.high < b.high else a.low < b.low }

  function Value128(a: Var128): nat { a.low + 0x1_0000_0000_0000_0000 * a.high }

  lemma Less128IsLess(a: Var128, b: Var128)
    requires a.low < 0x1_0000_0000_0000_0000 && b.low < 0x1_0000_0000_0000_0000
    ensures Less128(a, b) <==> Value128(a) < Value128(b)
    ensures a == b <==> Value128(a) == Value128(b)
  {
    if a.high < b.high { assert a.high + 1 <= b.high; }
    if b.high < a.high { assert b.high + 1 <= a.high; }
  }

  lemma {:induction false} FromLEAppend(x: seq<Byte>, y: seq<Byte>)
    ensures FromLE(x + y) == FromLE(x) + Pow256(|x|) * FromLE(y)
  {
    if x == [] {
      assert x + y == y;
    } else {
      assert (x + y)[1..] == x[1..] + y;
      FromLEAppend(x[1..], y);
      Scale(Pow256(|x| - 1), FromLE(y));
    }
  }

  lemma Scale(p: nat, v: nat)
    ensures 256 * (p * v) == (256 * p) * v
  {
  }

  lemma {:induction false} FromLEBound(x: seq<Byte>)
    requires AreBytes(x)
    ensures FromLE(x) < Pow256(|x|)
  {
    if x != [] { FromLEBound(x[1..]); }
  }

  // memcpy of an opcode of more than eight bytes into the two words.
  function WordsOf(b: seq<Byte>): Var128
    requires 8 <= |b| <= 16
  { Var128(FromLE(b[..8]), FromLE(b[8..])) }

  lemma WordsValue(b: seq<Byte>)
    requires 8 <= |b| <= 16 && AreBytes(b)
    ensures Value128(WordsOf(b)) == KeyOf(b) && WordsOf(b).low < 0x1_0000_0000_0000_0000
  {
    assert b == b[..8] + b[8..];
    FromLEAppend(b[..8], b[8..]);
    FromLEBound(b[..8]);
    Pow256Values();
  }

  // The set of long opcodes, ordered by the two-word comparison, is ordered by the keys used here.
  lemma KeyOrder128(a: seq<Byte>, b: seq<Byte>)
    requires 8 <= |a| <= 16 && 8 <= |b| <= 16 && AreBytes(a) && AreBytes(b)
    ensures Less128(WordsOf(a), WordsOf(b)) <==> KeyOf(a) < KeyOf(b)
    ensures WordsOf(a) == WordsOf(b) <==> KeyOf(a) == KeyOf(b)
  {
    WordsValue(a);
    WordsValue(b);
    Less128IsLess(WordsOf(a), WordsOf(b));
  }

  // ---- the sets ----

  // A handler: its key, and the opcode it was made for.
  datatype Entry = Entry(key: nat, bytes: seq<Byte>)

  function Keys(s: seq<Entry>): (k: seq<int>)
    ensures |k| == |s|
    ensures forall i :: 0 <= i < |s| ==> k[i] == s[i].key
  { seq(|s|, i requires 0 <= i < |s| => s[i].key) }

  // A std::set in its own order: keys strictly increase.
  ghost predicate IsSet(s: seq<Entry>) { StrictlySorted(Keys(s)) }

  // find, and insert when absent.
  function Insert(s: seq<Entry>, b: seq<Byte>): seq<Entry> {
    var p := LowerBound(Keys(s), KeyOf(b));
    if p < |s| && s[p].key == KeyOf(b) then s else s[..p] + [Entry(KeyOf(b), b)] + s[p..]
  }

  predicate Made(e: Entry, ops: set<seq<Byte>>, c: nat) {
    e.bytes in ops && ClassOf(|e.bytes|) == c && e.key == KeyOf(e.bytes)
  }

  // Every entry of the set was made for one of these opcodes of class c, and each of those has one.
  ghost predicate Covers(s: seq<Entry>, ops: set<seq<Byte>>, c: nat) {
    && (forall e :: e in s ==> Made(e, ops, c))
    && (forall b :: b in ops && ClassOf(|b|) == c ==> KeyOf(b) in Keys(s))
  }

  lemma InsertKeeps(s: seq<Entry>, b: seq<Byte>, ops: set<seq<Byte>>)
    requires IsSet(s) && Covers(s, ops, ClassOf(|b|))
    ensures IsSet(Insert(s, b)) && Covers(Insert(s, b), ops + {b}, ClassOf(|b|))
  {
    var (k, p) := (Keys(s), LowerBound(Keys(s), KeyOf(b)));
    LowerBoundSplits(k, KeyOf(b));
    if p < |s| && s[p].key == KeyOf(b) {
      assert k[p] == KeyOf(b);
    } else {
      InsertedCovers(s, b, ops, p, s[..p] + [Entry(KeyOf(b), b)] + s[p..]);
    }
  }

  lemma InsertedCovers(s: seq<Entry>, b: seq<Byte>, ops: set<seq<Byte>>, p: nat, t: seq<Entry>)
    requires IsSet(s) && Covers(s, ops, ClassOf(|b|)) && Splits(Keys(s), KeyOf(b), p)
    requires (p < |s| ==> s[p].key != KeyOf(b))
    requires t == s[..p] + [Entry(KeyOf(b), b)] + s[p..]
    ensures IsSet(t) && Covers(t, ops + {b}, ClassOf(|b|))
  {
    KeysOfInserted(s, Entry(KeyOf(b), b), p);
    InsertedKeys(Keys(s), KeyOf(b), p);
    InsertedMade(s, Entry(KeyOf(b), b), p, ops, ClassOf(|b|));
    assert KeyOf(b) in Keys(t) by { assert Keys(t)[p] == KeyOf(b); }
  }

  lemma KeysOfInserted(s: seq<Entry>, e: Entry, p: nat)
    requires p <= |s|
    ensures Keys(s[..p] + [e] + s[p..]) == Keys(s)[..p] + [e.key] + Keys(s)[p..]
  {
  }

  lemma InsertedMade(s: seq<Entry>, e: Entry, p: nat, ops: set<seq<Byte>>, c: nat)
    requires p <= |s| && (forall x :: x in s ==> Made(x, ops, c)) && Made(e, {e.bytes}, c)
    ensures forall x :: x in s[..p] + [e] + s[p..] ==> Made(x, ops + {e.bytes}, c)
  {
    forall x | x in s[..p] + [e] + s[p..] ensures Made(x, ops + {e.bytes}, c) {
      assert x == e || x in s;
    }
  }

  lemma InsertedKeys(k: seq<int>, key: int, p: nat)
    requires StrictlySorted(k) && Splits(k, key, p) && (p < |k| ==> k[p] != key)
    ensures StrictlySorted(k[..p] + [key] + k[p..])
    ensures forall x :: x in k ==> x in k[..p] + [key] + k[p..]
  {
    var t := k[..p] + [key] + k[p..];
    forall x | x in k ensures x in t {
      var i :| 0 <= i < |k| && k[i] == x;
      assert t[if i < p then i else i + 1] == x;
    }
  }

  // ---- the numbered list ----

  datatype Range = Range(start: nat, end: nat)

  // The five ranges partition the list in order, each holding the set of its class.
  ghost predicate Partition(opc: seq<seq<Entry>>, handlers: seq<Entry>, ranges: seq<Range>) {
    && |opc| == 5 && |ranges| == 5 && ranges[0].start == 0 && ranges[4].end == |handlers|
    && (forall c :: 0 <= c < 4 ==> ranges[c].end == ranges[c + 1].start)
    && (forall c :: 0 <= c < 5 ==> Holds(opc[c], handlers, ranges[c]))
  }

  ghost predicate Holds(s: seq<Entry>, handlers: seq<Entry>, r: Range) {
    r.start <= r.end <= |handlers| && handlers[r.start..r.end] == s
  }

  ghost predicate Filed(opc: seq<seq<Entry>>, ops: set<seq<Byte>>) {
    |opc| == 5 && forall c :: 0 <= c < 5 ==> IsSet(opc[c]) && Covers(opc[c], ops, c)
  }

  lemma FileOne(opc: seq<seq<Entry>>, ops: set<seq<Byte>>, b: seq<Byte>)
    requires Filed(opc, ops)
    ensures var c := ClassOf(|b|); Filed(opc[c := Insert(opc[c], b)], ops + {b})
  {
    InsertKeeps(opc[ClassOf(|b|)], b, ops);
  }

  // The position found is the one of the handler made for this very opcode.
  lemma FindExact(s: seq<Entry>, ops: set<seq<Byte>>, c: nat, b: seq<Byte>)
    requires IsSet(s) && Covers(s, ops, c) && ClassOf(|b|) == c
    ensures IsExact(LowerBound(Keys(s), KeyOf(b)), Keys(s), KeyOf(b)) <==> KeyOf(b) in Keys(s)
    ensures b in ops ==> KeyOf(b) in Keys(s)
    ensures b in ops && Opcodes(ops) && PrefixFree(ops) ==>
      var p := LowerBound(Keys(s), KeyOf(b)); p < |s| && s[p].bytes == b
  {
    StrictIsSorted(Keys(s));
    ExactIffMember(Keys(s), KeyOf(b));
    if b in ops && Opcodes(ops) && PrefixFree(ops) {
      var p := LowerBound(Keys(s), KeyOf(b));
      assert s[p] in s && Made(s[p], ops, c);
      KeyInjective(ops, s[p].bytes, b);
    }
  }

  class PreEncoder {
    var opc: seq<seq<Entry>>
    var handlers: seq<Entry>
    var ranges: seq<Range>
    ghost var ops: set<seq<Byte>>

    // Every opcode prefetched so far is filed in the set of its class.
    ghost predicate Valid() reads this { Filed(opc, ops) }

    ghost predicate Loaded() reads this { Partition(opc, handlers, ranges) && |handlers| <= INVALID }

    constructor ()
      ensures Valid() && ops == {} && handlers == []
    {
      opc := [[], [], [], [], []];
      handlers, ranges, ops := [], [], {};
    }

    // Prefetch the decoded instructions of one function.
    method PrefetchFunction(insns: seq<seq<Byte>>)
      requires Valid()
      modifies this`opc, this`ops
      ensures Valid() && ops == old(ops) + set b | b in insns
    {
      for i := 0 to |insns|
        invariant Valid() && ops == old(ops) + set b | b in insns[..i]
      {
        var b := insns[i];
        var c := ClassOf(|b|);
        FileOne(opc, ops, b);
        opc := opc[c := Insert(opc[c], b)];
        ops := ops + {b};
        assert insns[..i + 1] == insns[..i] + [b];
      }
      assert insns[..|insns|] == insns;
    }

    // Put all handlers in one indexed sequence, class by class.
    method LoadHandlers()
      requires Valid()
      modifies this`handlers, this`ranges
      ensures Partition(opc, handlers, ranges)
    {
      handlers, ranges := [], [];
      for c := 0 to 5
        invariant Listed(opc, handlers, ranges, c)
      {
        var start := |handlers|;
        ListNext(opc, handlers, ranges, c);
        LoadClass(opc[c]);
        ranges := ranges + [Range(start, |handlers|)];
      }
    }

    method LoadClass(s: seq<Entry>)
      modifies this`handlers
      ensures handlers == old(handlers) + s
    {
      for i := 0 to |s|
        invariant handlers == old(handlers) + s[..i]
      {
        handlers := handlers + [s[i]];
      }
    }

    method HandlerIndex(opcode: seq<Byte>) returns (r: nat)
      requires Valid() && Loaded()
      ensures IsIndex(handlers, ops, opcode, r)
    {
      if |opcode| == 0 || |opcode| > 16 { return INVALID; }
      var c := ClassOf(|opcode|);
      var (start, end) := (ranges[c].start, ranges[c].end);
      assert Holds(opc[c], handlers, ranges[c]);
      var s := handlers[start..end];
      var p := LowerBound(Keys(s), KeyOf(opcode));
      FindExact(s, ops, c, opcode);
      if p == |s| || s[p].key != KeyOf(opcode) {
        NotFound(s, ops, c, opcode);
        return INVALID;
      }
      Found(opc, handlers, ranges, ops, c, p, opcode);
      r := start + p;
    }
  }

  predicate Matches(e: Entry, opcode: seq<Byte>) { e.key == KeyOf(opcode) && ClassOf(|e.bytes|) == ClassOf(|opcode|) }

  /**
   r is the index of an opcode: the only position whose handler was prefetched under its key, or
   INVALID when no prefetched opcode has it; with prefix-free opcodes, the handler made for
   exactly these bytes.
   */
  ghost predicate IsIndex(handlers: seq<Entry>, ops: set<seq<Byte>>, opcode: seq<Byte>, r: nat) {
    if |opcode| == 0 || |opcode| > 16 then r == INVALID
    else if r == INVALID then forall b :: b in ops && ClassOf(|b|) == ClassOf(|opcode|) ==> KeyOf(b) != KeyOf(opcode)
    else
      && r < |handlers| && Matches(handlers[r], opcode)
      && (forall j :: 0 <= j < |handlers| && Matches(handlers[j], opcode) ==> j == r)
      && (opcode in ops && Opcodes(ops) && PrefixFree(ops) ==> handlers[r].bytes == opcode)
  }

  lemma NotFound(s: seq<Entry>, ops: set<seq<Byte>>, c: nat, opcode: seq<Byte>)
    requires Covers(s, ops, c) && ClassOf(|opcode|) == c && KeyOf(opcode) !in Keys(s)
    ensures forall b :: b in ops && ClassOf(|b|) == c ==> KeyOf(b) != KeyOf(opcode)
  {
  }

  lemma Found(opc: seq<seq<Entry>>, handlers: seq<Entry>, ranges: seq<Range>, ops: set<seq<Byte>>, c: nat, p: nat,
              opcode: seq<Byte>)
    requires Filed(opc, ops) && Partition(opc, handlers, ranges) && |handlers| <= INVALID && 1 <= |opcode| <= 16
    requires c == ClassOf(|opcode|) && p == LowerBound(Keys(opc[c]), KeyOf(opcode)) && p < |opc[c]|
    requires opc[c][p].key == KeyOf(opcode)
    ensures IsIndex(handlers, ops, opcode, ranges[c].start + p)
  {
    var r := ranges[c].start + p;
    assert Holds(opc[c], handlers, ranges[c]);
    AtPosition(opc[c], handlers, ranges[c], p);
    EntryFound(opc[c], ops, c, p, opcode);
    forall j | 0 <= j < |handlers| && Matches(handlers[j], opcode) ensures j == r {
      SamePlace(opc, handlers, ranges, ops, c, p, j);
    }
  }

  lemma AtPosition(s: seq<Entry>, handlers: seq<Entry>, r: Range, p: nat)
    requires Holds(s, handlers, r) && p < |s|
    ensures r.start + p < |handlers| && handlers[r.start + p] == s[p]
  {
    assert handlers[r.start..r.end][p] == handlers[r.start + p];
  }

  lemma EntryFound(s: seq<Entry>, ops: set<seq<Byte>>, c: nat, p: nat, opcode: seq<Byte>)
    requires IsSet(s) && Covers(s, ops, c) && c == ClassOf(|opcode|)
    requires p == LowerBound(Keys(s), KeyOf(opcode)) && p < |s| && s[p].key == KeyOf(opcode)
    ensures Matches(s[p], opcode) && (opcode in ops && Opcodes(ops) && PrefixFree(ops) ==> s[p].bytes == opcode)
  {
    FindExact(s, ops, c, opcode);
    assert s[p] in s && Made(s[p], ops, c);
  }

  lemma HoldsMore(s: seq<Entry>, handlers: seq<Entry>, more: seq<Entry>, r: Range)
    requires Holds(s, handlers, r)
    ensures Holds(s, handlers + more, r)
  {
    assert (handlers + more)[r.start..r.end] == handlers[r.start..r.end];
  }

  // The first n classes are listed one after the other.
  ghost predicate Listed(opc: seq<seq<Entry>>, handlers: seq<Entry>, ranges: seq<Range>, n: nat) {
    && |ranges| == n <= |opc|
    && (if n == 0 then handlers == [] else ranges[0].start == 0 && ranges[n - 1].end == |handlers|)
    && (forall c :: 0 <= c < n - 1 ==> ranges[c].end == ranges[c + 1].start)
    && (forall c :: 0 <= c < n ==> Holds(opc[c], handlers, ranges[c]))
  }

  lemma ListNext(opc: seq<seq<Entry>>, handlers: seq<Entry>, ranges: seq<Range>, n: nat)
    requires Listed(opc, handlers, ranges, n) && n < |opc|
    ensures Listed(opc, handlers + opc[n], ranges + [Range(|handlers|, |handlers + opc[n]|)], n + 1)
  {
    var (h, r) := (handlers + opc[n], ranges + [Range(|handlers|, |handlers + opc[n]|)]);
    HoldsNew(handlers, opc[n]);
    forall c | 0 <= c < n + 1 ensures Holds(opc[c], h, r[c]) {
      if c < n { HoldsMore(opc[c], handlers, opc[n], ranges[c]); }
    }
  }

  lemma HoldsNew(handlers: seq<Entry>, more: seq<Entry>)
    ensures Holds(more, handlers + more, Range(|handlers|, |handlers + more|))
  {
  }

  // Which range a position lies in.
  lemma RangeOf(opc: seq<seq<Entry>>, handlers: seq<Entry>, ranges: seq<Range>, j: nat) returns (d: nat)
    requires Partition(opc, handlers, ranges) && j < |handlers|
    ensures d < 5 && ranges[d].start <= j < ranges[d].end && j - ranges[d].start < |opc[d]|
    ensures handlers[j] == opc[d][j - ranges[d].start]
  {
    d := if j < ranges[0].end then 0 else if j < ranges[1].end then 1
         else if j < ranges[2].end then 2 else if j < ranges[3].end then 3 else 4;
    assert Holds(opc[d], handlers, ranges[d]);
    assert handlers[ranges[d].start..ranges[d].end][j - ranges[d].start] == handlers[j];
  }

  // Every listed handler was made for a prefetched opcode, under its key.
  lemma ListedMade(opc: seq<seq<Entry>>, handlers: seq<Entry>, ranges: seq<Range>, ops: set<seq<Byte>>, j: nat)
    requires Filed(opc, ops) && Partition(opc, handlers, ranges) && j < |handlers|
    ensures handlers[j].bytes in ops && handlers[j].key == KeyOf(handlers[j].bytes)
  {
    var d := RangeOf(opc, handlers, ranges, j);
    assert handlers[j] in opc[d] && Made(handlers[j], ops, d);
  }

  lemma SamePlace(opc: seq<seq<Entry>>, handlers: seq<Entry>, ranges: seq<Range>, ops: set<seq<Byte>>, c: nat, p: nat,
                  j: nat)
    requires Filed(opc, ops) && Partition(opc, handlers, ranges) && c < 5 && p < |opc[c]| && j < |handlers|
    requires ClassOf(|handlers[j].bytes|) == c && handlers[j].key == opc[c][p].key
    ensures j == ranges[c].start + p
  {
    var d := RangeOf(opc, handlers, ranges, j);
    assert handlers[j] in opc[d] && Made(handlers[j], ops, d);
    SameKeyIndex(opc[c], j - ranges[d].start, p);
  }

  lemma SameKeyIndex(s: seq<Entry>, p: nat, q: nat)
    requires IsSet(s) && p < |s| && q < |s| && s[p].key == s[q].key
    ensures p == q
  {
    assert Keys(s)[p] == Keys(s)[q];
  }
}

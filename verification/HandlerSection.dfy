/**
 The handler section of the metadata file: PreEncoder::serializeHandler of src/PreEncoder.cpp
 writes the records one after the other with running offsets; the accessors of src/IMetaData.h
 follow an offset to its record, and the walk in PreEncoder::dump steps over them.
 */
module HandlerSection {
  import opened Words
  import opened Bytes
  import opened HandlerRecord

  const U32_MAX := 0xffff_ffff

  // Dynamic handlers are numbered in order, unless their code is embedded.
  function DynBefore(hs: seq<Handler>, aot: bool, i: nat): nat
    requires i <= |hs|
  { if i == 0 then 0 else NextDyn(hs[i - 1], aot, DynBefore(hs, aot, i - 1)) }

  function SerializeAt(hs: seq<Handler>, aot: bool, impls: seq<int>, i: nat): Option<seq<Byte>>
    requires i < |hs| && WellFormed(hs[i])
  { Serialize(hs[i], aot, impls, DynBefore(hs, aot, i)) }

  ghost predicate AllWellFormed(hs: seq<Handler>) { forall i :: 0 <= i < |hs| ==> WellFormed(hs[i]) }

  // records are the handlers' records, one each, in order.
  ghost predicate RecordsOf(hs: seq<Handler>, aot: bool, impls: seq<int>, records: seq<seq<Byte>>)
    requires AllWellFormed(hs)
  {
    RecordsUpTo(hs, aot, impls, records, |hs|)
  }

  ghost predicate RecordsUpTo(hs: seq<Handler>, aot: bool, impls: seq<int>, records: seq<seq<Byte>>, n: nat)
    requires AllWellFormed(hs) && n <= |hs|
  { |records| == n && forall i :: 0 <= i < n ==> SerializeAt(hs, aot, impls, i) == Some(records[i]) }

  // offsets are the running section offsets of the records.
  ghost predicate OffsetsOf(records: seq<seq<Byte>>, offsets: seq<nat>) {
    |offsets| == |records| && forall i :: 0 <= i < |records| ==> offsets[i] == Offset(records, i)
  }

  // No record sequence exists for these handlers within the 32-bit format.
  ghost predicate NoSection(hs: seq<Handler>, aot: bool, impls: seq<int>)
    requires AllWellFormed(hs)
  { forall all: seq<seq<Byte>> :: RecordsOf(hs, aot, impls, all) ==> |Concat(all)| > U32_MAX }

  lemma MissingRecord(hs: seq<Handler>, aot: bool, impls: seq<int>, i: nat)
    requires AllWellFormed(hs) && i < |hs| && SerializeAt(hs, aot, impls, i).None?
    ensures NoSection(hs, aot, impls)
  {
  }

  method SerializeHandlers(hs: seq<Handler>, aot: bool, impls: seq<int>)
    returns (ok: bool, records: seq<seq<Byte>>, offsets: seq<nat>)
    requires AllWellFormed(hs)
    ensures ok ==> RecordsOf(hs, aot, impls, records) && OffsetsOf(records, offsets) && |Concat(records)| <= U32_MAX
    ensures !ok ==> NoSection(hs, aot, impls)
  {
    records, offsets := [], [];
    var at, dyn := 0, 0;
    for i := 0 to |hs|
      invariant |records| == i && dyn == DynBefore(hs, aot, i) && at == |Concat(records)| <= U32_MAX
      invariant RecordsUpTo(hs, aot, impls, records, i)
      invariant OffsetsOf(records, offsets)
    {
      var record := Serialize(hs[i], aot, impls, dyn);
      if record.None? {
        MissingRecord(hs, aot, impls, i);
        return false, [], [];
      }
      if |record.value| > U32_MAX - at {
        OversizeStays(hs, aot, impls, records, record.value, i);
        return false, [], [];
      }
      PushRecord(records, offsets, at, record.value);
      RecordsStep(hs, aot, impls, records, record.value, i);
      offsets := offsets + [at];
      records := records + [record.value];
      at := at + |record.value|;
      dyn := NextDyn(hs[i], aot, dyn);
    }
    ok := true;
  }

  lemma PushRecord(records: seq<seq<Byte>>, offsets: seq<nat>, at: nat, r: seq<Byte>)
    requires OffsetsOf(records, offsets) && at == |Concat(records)|
    ensures OffsetsOf(records + [r], offsets + [at]) && |Concat(records + [r])| == at + |r|
  {
    ConcatPush(records, r);
    forall i | 0 <= i <= |records| ensures Offset(records + [r], i) == Offset(records, i) {
      OffsetPush(records, r, i);
    }
    ConcatLength(records);
  }

  lemma RecordsStep(hs: seq<Handler>, aot: bool, impls: seq<int>, records: seq<seq<Byte>>, r: seq<Byte>, i: nat)
    requires AllWellFormed(hs) && i < |hs| && RecordsUpTo(hs, aot, impls, records, i)
    requires SerializeAt(hs, aot, impls, i) == Some(r)
    ensures RecordsUpTo(hs, aot, impls, records + [r], i + 1)
  {
  }

  // Once the section is too long, so is every completion of it.
  lemma OversizeStays(hs: seq<Handler>, aot: bool, impls: seq<int>, records: seq<seq<Byte>>, r: seq<Byte>, i: nat)
    requires AllWellFormed(hs) && i < |hs|
    requires RecordsUpTo(hs, aot, impls, records, i)
    requires SerializeAt(hs, aot, impls, i) == Some(r) && |Concat(records)| + |r| > U32_MAX
    ensures NoSection(hs, aot, impls)
  {
    forall all: seq<seq<Byte>> | RecordsOf(hs, aot, impls, all) ensures |Concat(all)| > U32_MAX {
      SharedRecords(hs, aot, impls, records, r, i, all);
      TooLong(records, r, all);
    }
  }

  lemma SharedRecords(hs: seq<Handler>, aot: bool, impls: seq<int>, records: seq<seq<Byte>>, r: seq<Byte>, i: nat,
                      all: seq<seq<Byte>>)
    requires AllWellFormed(hs) && i < |hs| && RecordsUpTo(hs, aot, impls, records, i)
    requires SerializeAt(hs, aot, impls, i) == Some(r)
    requires RecordsOf(hs, aot, impls, all)
    ensures records + [r] <= all
  {
    forall k | 0 <= k <= i ensures all[k] == (records + [r])[k] {
      assert SerializeAt(hs, aot, impls, k) == Some(all[k]);
    }
  }

  lemma TooLong(records: seq<seq<Byte>>, r: seq<Byte>, all: seq<seq<Byte>>)
    requires records + [r] <= all
    ensures |Concat(all)| >= |Concat(records)| + |r|
  {
    var rest := all[|records| + 1..];
    assert all == (records + [r]) + rest;
    ConcatPush(records, r);
    ConcatAppend(records + [r], rest);
  }

  // Records are determined by the handlers.
  lemma RecordsUnique(hs: seq<Handler>, aot: bool, impls: seq<int>, a: seq<seq<Byte>>, b: seq<seq<Byte>>)
    requires AllWellFormed(hs) && RecordsOf(hs, aot, impls, a) && RecordsOf(hs, aot, impls, b)
    ensures a == b
  {
    forall i | 0 <= i < |hs| ensures a[i] == b[i] {
      assert SerializeAt(hs, aot, impls, i) == Some(a[i]);
    }
  }

  // ---- the records tile the section ----

  lemma {:induction false} OffsetsGrow(records: seq<seq<Byte>>, i: nat, j: nat)
    requires i < j <= |records|
    ensures Offset(records, i) + |records[i]| <= Offset(records, j) <= |Concat(records)|
    decreases j
  {
    OffsetStep(records, j - 1);
    if i < j - 1 { OffsetsGrow(records, i, j - 1); }
  }

  ghost predicate Holds(records: seq<seq<Byte>>, i: nat, p: nat) {
    i < |records| && Offset(records, i) <= p < Offset(records, i) + |records[i]|
  }

  // Every byte of the section belongs to exactly one record: no gap and no overlap.
  lemma {:induction false} RecordsTile(records: seq<seq<Byte>>, p: nat) returns (i: nat)
    requires p < |Concat(records)|
    ensures Holds(records, i, p)
    ensures forall j: nat :: Holds(records, j, p) ==> j == i
  {
    i := Covering(records, p);
    forall j: nat | Holds(records, j, p) ensures j == i {
      if i < j { OffsetsGrow(records, i, j); }
      if j < i { OffsetsGrow(records, j, i); }
    }
  }

  lemma {:induction false} Covering(records: seq<seq<Byte>>, p: nat) returns (i: nat)
    requires p < |Concat(records)|
    ensures Holds(records, i, p)
  {
    if p < |records[0]| {
      i := 0;
    } else {
      var k := Covering(records[1..], p - |records[0]|);
      i := k + 1;
    }
  }

  // ---- following an offset ----

  // The implementation field of handler i.
  function ImplAt(hs: seq<Handler>, aot: bool, impls: seq<int>, i: nat): Option<nat>
    requires i < |hs|
  { ImplField(hs[i], aot, impls, DynBefore(hs, aot, i)) }

  lemma RecordAt(hs: seq<Handler>, aot: bool, impls: seq<int>, records: seq<seq<Byte>>, i: nat)
    requires AllWellFormed(hs) && RecordsOf(hs, aot, impls, records) && i < |hs|
    ensures Encodable(hs[i]) && ImplAt(hs, aot, impls, i).Some? && ImplAt(hs, aot, impls, i).value < 0x10000
    ensures records[i] == Record(hs[i], aot, ImplAt(hs, aot, impls, i).value)
    ensures aot && hs[i].typ.Dynamic? ==> ImplAt(hs, aot, impls, i).value == |hs[i].code|
  {
    assert SerializeAt(hs, aot, impls, i) == Some(records[i]);
  }

  // The record found at its offset in any buffer that holds the section at base.
  lemma AtOffset(data: seq<Byte>, base: nat, records: seq<seq<Byte>>, i: nat)
    requires base <= |data| && data[base..] == Concat(records) && i < |records|
    ensures base + Offset(records, i) + |records[i]| <= |data|
    ensures records[i] <= data[base + Offset(records, i)..]
  {
    ConcatSlice(records, i);
    var (o, n) := (Offset(records, i), |records[i]|);
    assert data[base + o..][..n] == data[base..][o..o + n];
  }

  // Following the offset of handler i yields the fields of handler i.
  lemma SectionReads(data: seq<Byte>, base: nat, hs: seq<Handler>, aot: bool, impls: seq<int>, records: seq<seq<Byte>>,
                     i: nat)
    requires base <= |data| && data[base..] == Concat(records) && i < |hs|
    requires AllWellFormed(hs) && RecordsOf(hs, aot, impls, records)
    ensures base + Offset(records, i) <= |data| && ImplAt(hs, aot, impls, i).Some?
    ensures Reads(data[base + Offset(records, i)..], hs[i], ImplAt(hs, aot, impls, i).value)
  {
    RecordAt(hs, aot, impls, records, i);
    AtOffset(data, base, records, i);
    RecordRoundTrip(hs[i], aot, ImplAt(hs, aot, impls, i).value, data[base + Offset(records, i)..]);
  }

  // ---- alignment of embedded code ----

  lemma {:induction false} OffsetsAligned(records: seq<seq<Byte>>, i: nat)
    requires i <= |records| && forall k :: 0 <= k < |records| ==> |records[k]| % 4 == 0
    ensures Offset(records, i) % 4 == 0
    decreases i
  {
    if i > 0 {
      OffsetsAligned(records[1..], i - 1);
      SumAligned(|records[0]|, Offset(records[1..], i - 1));
    }
  }

  // The code pointer of the record at `at` is aligned and points at the code.
  ghost predicate CodeInPlace(data: seq<Byte>, at: nat, code: seq<Byte>) {
    && at + 4 <= |data|
    && var p := at + CodeAt(data[at..]);
       p % 4 == 0 && p + |code| <= |data| && data[p..p + |code|] == code
  }

  /**
   With embedded code and opcode lengths that are multiples of four, the code of every dynamic
   handler starts at an aligned file offset, exactly where handler() points.
   */
  lemma CodeAligned(data: seq<Byte>, base: nat, hs: seq<Handler>, impls: seq<int>, records: seq<seq<Byte>>, i: nat,
                    at: nat)
    requires base <= |data| && data[base..] == Concat(records) && base % 4 == 0 && i < |hs|
    requires AllWellFormed(hs) && RecordsOf(hs, true, impls, records)
    requires hs[i].typ.Dynamic? && hs[i].code != [] && hs[i].oplen % 4 == 0 && at == base + Offset(records, i)
    ensures CodeInPlace(data, at, hs[i].code)
  {
    SectionAligned(base, hs, impls, records, i);
    RecordAt(hs, true, impls, records, i);
    AtOffset(data, base, records, i);
    CodeFound(data, at, hs[i], ImplAt(hs, true, impls, i).value);
  }

  lemma SectionAligned(base: nat, hs: seq<Handler>, impls: seq<int>, records: seq<seq<Byte>>, i: nat)
    requires AllWellFormed(hs) && RecordsOf(hs, true, impls, records) && i <= |hs| && base % 4 == 0
    ensures (base + Offset(records, i)) % 4 == 0
  {
    forall k | 0 <= k < |records| ensures |records[k]| % 4 == 0 {
      RecordAligned(hs, impls, records, k);
    }
    OffsetsAligned(records, i);
    SumAligned(base, Offset(records, i));
  }

  lemma SumAligned(x: nat, y: nat)
    requires x % 4 == 0 && y % 4 == 0
    ensures (x + y) % 4 == 0
  {
  }

  lemma RecordAligned(hs: seq<Handler>, impls: seq<int>, records: seq<seq<Byte>>, k: nat)
    requires AllWellFormed(hs) && RecordsOf(hs, true, impls, records) && k < |hs|
    ensures |records[k]| % 4 == 0
  {
    RecordAt(hs, true, impls, records, k);
    RecordSize(hs[k], true, ImplAt(hs, true, impls, k).value);
  }

  lemma CodeFound(data: seq<Byte>, at: nat, h: Handler, impl: nat)
    requires WellFormed(h) && Encodable(h) && impl < 0x10000 && h.typ.Dynamic? && h.code != [] && h.oplen % 4 == 0
    requires at <= |data| && at % 4 == 0 && Record(h, true, impl) <= data[at..]
    ensures CodeInPlace(data, at, h.code)
  {
    CodePlacement(h, impl, data[at..]);
    CodeLies(data, at, CodeAt(data[at..]), h.code);
  }

  lemma CodeLies(data: seq<Byte>, at: nat, c: nat, code: seq<Byte>)
    requires at + 4 <= |data| && at % 4 == 0 && c == CodeAt(data[at..]) && c % 4 == 0
    requires c + |code| <= |data[at..]| && data[at..][c..c + |code|] == code
    ensures CodeInPlace(data, at, code)
  {
    SumAligned(at, c);
    SuffixSlice(data, at, c, |code|);
  }

  lemma SuffixSlice(data: seq<Byte>, at: nat, c: nat, n: nat)
    requires at + c + n <= |data|
    ensures data[at..][c..c + n] == data[at + c..at + c + n]
  {
  }

  // ---- the walk in dump ----

  // The record's plain size as dump computes it.
  function DumpPlain(v: View): nat { 4 + v.oplen + (if v.typ == TypeCode(Remill) then 2 * v.oprnum else 0) }

  // dump stops at a record that is truncated or of no known type.
  predicate DumpAccepts(v: View, room: nat, aot: bool) {
    && v.typ <= TypeCode(PrebuiltMapped) && DumpPlain(v) <= room
    && (aot && v.typ == TypeCode(Dynamic) ==> Align4(DumpPlain(v)) + v.impl <= room)
  }

  // The section offsets dump computes for n records from file offset `at` on.
  function Walk(data: seq<Byte>, base: nat, at: nat, n: nat, aot: bool): Option<seq<nat>>
    requires base <= at
    decreases n
  {
    if n == 0 then Some([])
    else if at > |data| || |data| - at < 4 then None
    else
      var v := ReadHead(data[at..]);
      if !DumpAccepts(v, |data| - at, aot) then None
      else Prepend([at - base], Walk(data, base, at + DumpSize(v, aot), n - 1, aot))
  }

  function Prepend(a: seq<nat>, r: Option<seq<nat>>): Option<seq<nat>> {
    if r.None? then None else Some(a + r.value)
  }

  lemma PrependNone(a: seq<nat>)
    ensures Prepend(a, Some([])) == Some(a)
  {
    assert a + [] == a;
  }

  lemma PrependTwice(a: seq<nat>, x: nat, r: Option<seq<nat>>)
    ensures Prepend(a, Prepend([x], r)) == Prepend(a + [x], r) && Prepend([], r) == r
  {
    if r.Some? { assert a + ([x] + r.value) == (a + [x]) + r.value && [] + r.value == r.value; }
  }

  // One record of the walk, behind what was computed before it.
  lemma WalkNext(data: seq<Byte>, base: nat, at: nat, n: nat, aot: bool, v: View, computed: seq<nat>)
    requires base <= at && n > 0 && at <= |data| && |data| - at >= 4 && v == ReadHead(data[at..])
    requires DumpAccepts(v, |data| - at, aot)
    ensures Prepend(computed, Walk(data, base, at, n, aot))
         == Prepend(computed + [at - base], Walk(data, base, at + DumpSize(v, aot), n - 1, aot))
  {
    PrependTwice(computed, at - base, Walk(data, base, at + DumpSize(v, aot), n - 1, aot));
  }

  method DumpOffsets(data: seq<Byte>, base: nat, n: nat, aot: bool) returns (r: Option<seq<nat>>)
    ensures r == Walk(data, base, base, n, aot)
  {
    var computed: seq<nat> := [];
    var at := base;
    PrependTwice([], 0, Walk(data, base, base, n, aot));
    for i := 0 to n
      invariant base <= at
      invariant Walk(data, base, base, n, aot) == Prepend(computed, Walk(data, base, at, n - i, aot))
    {
      if at > |data| || |data| - at < 4 { return None; }
      var v := ReadHead(data[at..]);
      if !DumpAccepts(v, |data| - at, aot) { return None; }
      WalkNext(data, base, at, n - i, aot, v, computed);
      computed := computed + [at - base];
      at := at + DumpSize(v, aot);
    }
    PrependNone(computed);
    r := Some(computed);
  }

  // From record to record: dump accepts what lies at one offset and arrives at the next.
  ghost predicate StepsTo(data: seq<Byte>, base: nat, o: nat, next: nat, aot: bool) {
    && base + o + 4 <= |data|
    && DumpAccepts(ReadHead(data[base + o..]), |data| - (base + o), aot)
    && base + o + DumpSize(ReadHead(data[base + o..]), aot) == base + next
  }

  // dump accepts each record the writer wrote, and steps over exactly its bytes.
  lemma WalkStep(data: seq<Byte>, base: nat, hs: seq<Handler>, aot: bool, impls: seq<int>, records: seq<seq<Byte>>,
                 i: nat)
    requires base <= |data| && data[base..] == Concat(records) && i < |hs|
    requires AllWellFormed(hs) && RecordsOf(hs, aot, impls, records)
    ensures StepsTo(data, base, Offset(records, i), Offset(records, i + 1), aot)
  {
    RecordAt(hs, aot, impls, records, i);
    AtOffset(data, base, records, i);
    OffsetStep(records, i);
    var at := base + Offset(records, i);
    var impl := ImplAt(hs, aot, impls, i).value;
    DumpSizeOfRecord(hs[i], aot, impl, data[at..]);
    RecordRoundTrip(hs[i], aot, impl, data[at..]);
    AcceptsWithinSize(ReadHead(data[at..]), hs[i], aot, |data| - at);
  }

  lemma AcceptsWithinSize(v: View, h: Handler, aot: bool, room: nat)
    requires v.typ == TypeCode(h.typ) && DumpSize(v, aot) <= room
    ensures DumpAccepts(v, room, aot)
  {
  }

  lemma WalkOne(data: seq<Byte>, base: nat, at: nat, n: nat, aot: bool, next: nat)
    requires base <= at && at + 4 <= |data| && n > 0
    requires DumpAccepts(ReadHead(data[at..]), |data| - at, aot) && at + DumpSize(ReadHead(data[at..]), aot) == next
    ensures Walk(data, base, at, n, aot) == Prepend([at - base], Walk(data, base, next, n - 1, aot))
  {
  }

  lemma SplitFirst(s: seq<nat>, i: nat)
    requires i < |s|
    ensures s[i..] == [s[i]] + s[i + 1..]
  {
  }

  lemma {:induction false} WalkAlong(data: seq<Byte>, base: nat, stops: seq<nat>, aot: bool, i: nat)
    requires i < |stops| && AllSteps(data, base, stops, aot)
    ensures Walk(data, base, base + stops[i], |stops| - 1 - i, aot) == Some(stops[i..|stops| - 1])
    decreases |stops| - i
  {
    var n := |stops| - 1;
    if i < n {
      WalkAlong(data, base, stops, aot, i + 1);
      assert StepsTo(data, base, stops[i], stops[i + 1], aot);
      WalkOne(data, base, base + stops[i], n - i, aot, base + stops[i + 1]);
      SplitFirst(stops[..n], i);
      assert stops[..n][i..] == stops[i..n] && stops[..n][i + 1..] == stops[i + 1..n];
    } else {
      assert stops[i..n] == [];
    }
  }

  ghost predicate AllSteps(data: seq<Byte>, base: nat, stops: seq<nat>, aot: bool) {
    forall k :: 0 <= k < |stops| - 1 ==> StepsTo(data, base, stops[k], stops[k + 1], aot)
  }

  lemma RecordSteps(data: seq<Byte>, base: nat, hs: seq<Handler>, aot: bool, impls: seq<int>, records: seq<seq<Byte>>,
                    stops: seq<nat>)
    requires base <= |data| && data[base..] == Concat(records)
    requires AllWellFormed(hs) && RecordsOf(hs, aot, impls, records)
    requires |stops| == |records| + 1 && forall k :: 0 <= k < |stops| ==> stops[k] == Offset(records, k)
    ensures AllSteps(data, base, stops, aot)
  {
    forall k | 0 <= k < |hs| ensures StepsTo(data, base, Offset(records, k), Offset(records, k + 1), aot) {
      WalkStep(data, base, hs, aot, impls, records, k);
    }
  }

  // The offsets dump recomputes are all the writer's offsets.
  lemma WalkReproduces(data: seq<Byte>, base: nat, hs: seq<Handler>, aot: bool, impls: seq<int>,
                       records: seq<seq<Byte>>, offsets: seq<nat>)
    requires base <= |data| && data[base..] == Concat(records)
    requires AllWellFormed(hs) && RecordsOf(hs, aot, impls, records) && OffsetsOf(records, offsets)
    ensures Walk(data, base, base, |hs|, aot) == Some(offsets)
  {
    var n := |hs|;
    var stops := offsets + [Offset(records, n)];
    RecordSteps(data, base, hs, aot, impls, records, stops);
    WalkAll(data, base, stops, aot, n);
    assert stops[..n] == offsets;
  }

  lemma WalkAll(data: seq<Byte>, base: nat, stops: seq<nat>, aot: bool, n: nat)
    requires |stops| == n + 1 && stops[0] == 0 && AllSteps(data, base, stops, aot)
    ensures Walk(data, base, base, n, aot) == Some(stops[..n])
  {
    WalkAlong(data, base, stops, aot, 0);
    assert stops[0..n] == stops[..n];
  }
}

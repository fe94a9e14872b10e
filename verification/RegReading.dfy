/**
 Reading records back, one call at a time. A reader that stands in front of the records a call
 writes takes exactly these and returns what was packed; only a pointer whose slot was left
 empty goes on to read more.
 */
module RegReading {
  import opened Wrappers
  import opened RegStream
  import opened RegWriting

  // ---------- records ahead ----------

  /** Records laid end to end, numbered from n+1 on. */
  function FramedFrom(n: nat, records: seq<seq<int>>): seq<int>
    decreases |records|
  {
    if records == [] then []
    else [n + 1] + records[0] + FramedFrom(n + 1, records[1..])
  }

  lemma {:induction false} FramedFromConcat(n: nat, a: seq<seq<int>>, b: seq<seq<int>>)
    ensures FramedFrom(n, a + b) == FramedFrom(n, a) + FramedFrom(n + |a|, b)
    decreases |a|
  {
    if a == [] {
      assert a + b == b;
    } else {
      assert (a + b)[1..] == a[1..] + b;
      FramedFromConcat(n + 1, a[1..], b);
    }
  }

  lemma {:induction false} FramedIsFrom(records: seq<seq<int>>)
    ensures Framed(records) == FramedFrom(0, records)
  {
    if records != [] {
      var n := |records| - 1;
      FramedIsFrom(records[..n]);
      FramedFromConcat(0, records[..n], [records[n]]);
      assert records[..n] + [records[n]] == records;
      assert FramedFrom(n, [records[n]]) == [n + 1] + records[n];
    }
  }

  /** A running reader with exactly these records between its position and the end of the file. */
  ghost predicate Faces(r: Reader, records: seq<seq<int>>) {
    && r.status == Running
    && r.pos <= |r.file|
    && r.file[r.pos..] == FramedFrom(r.numData, records)
  }

  /** The reader once it has passed the record. */
  function Behind(r: Reader, record: seq<int>): Reader {
    r.(pos := r.pos + 1 + |record|, numData := r.numData + 1)
  }

  function Past(r: Reader, records: seq<seq<int>>): Reader
    decreases |records|
  {
    if records == [] then r else Past(Behind(r, records[0]), records[1..])
  }

  lemma {:induction false} PastConcat(r: Reader, a: seq<seq<int>>, b: seq<seq<int>>)
    ensures Past(r, a + b) == Past(Past(r, a), b)
    decreases |a|
  {
    if a == [] {
      assert a + b == b;
    } else {
      assert (a + b)[1..] == a[1..] + b;
      PastConcat(Behind(r, a[0]), a[1..], b);
    }
  }

  lemma {:induction false} PastPlace(r: Reader, records: seq<seq<int>>)
    ensures Past(r, records) == r.(pos := r.pos + |FramedFrom(r.numData, records)|, numData := r.numData + |records|)
    decreases |records|
  {
    if records != [] {
      PastPlace(Behind(r, records[0]), records[1..]);
    }
  }

  lemma HeadOfRest(file: seq<int>, pos: nat, number: int, record: seq<int>, more: seq<int>)
    requires pos <= |file| && file[pos..] == [number] + record + more
    ensures pos + 1 + |record| <= |file|
    ensures file[pos] == number && file[pos + 1..pos + 1 + |record|] == record && file[pos + 1 + |record|..] == more
  {
    var rest := file[pos..];
    assert rest[0] == number;
    assert rest[1..1 + |record|] == record && rest[1 + |record|..] == more;
    assert file[pos + 1..pos + 1 + |record|] == rest[1..1 + |record|];
    assert file[pos + 1 + |record|..] == rest[1 + |record|..];
  }

  /** Asking for as many cells as the next record holds returns them, and the reader faces the rest. */
  lemma RecordRead(r: Reader, record: seq<int>, rest: seq<seq<int>>)
    requires Faces(r, [record] + rest)
    ensures Unpack(r, |record|) == (Behind(r, record), record) && Faces(Behind(r, record), rest)
  {
    assert ([record] + rest)[1..] == rest;
    HeadOfRest(r.file, r.pos, r.numData + 1, record, FramedFrom(r.numData + 1, rest));
  }

  lemma BoundsRead(r: Reader, b: Block, rest: seq<seq<int>>)
    requires |b.lb| == |b.ub| && Faces(r, BoundsRecords(b) + rest)
    ensures UnpackBounds(r, |b.lb|) == (Past(r, BoundsRecords(b)), b.lb, b.ub)
    ensures Faces(Past(r, BoundsRecords(b)), rest)
  {
    if b.lb == [] {
      assert [] + rest == rest;
    } else {
      assert [b.lb, b.ub] + rest == [b.lb] + ([b.ub] + rest);
      RecordRead(r, b.lb, [b.ub] + rest);
      RecordRead(Behind(r, b.lb), b.ub, rest);
      PastTwo(r, b.lb, b.ub);
    }
  }

  lemma PastOne(r: Reader, record: seq<int>)
    ensures Past(r, [record]) == Behind(r, record)
  {
    assert [record][1..] == [];
  }

  lemma PastTwo(r: Reader, record: seq<int>, record': seq<int>)
    ensures Past(r, [record, record']) == Behind(Behind(r, record), record')
  {
    assert [record, record'][1..] == [record'];
    PastOne(Behind(r, record), record');
  }

  /** The flag and the bounds that open an allocated or associated value. */
  function OpeningRecords(b: Block): seq<seq<int>> {
    [[1]] + BoundsRecords(b)
  }

  lemma OpeningRead(r: Reader, b: Block, rest: seq<seq<int>>)
    requires |b.lb| == |b.ub| && Faces(r, OpeningRecords(b) + rest)
    ensures var r1 := Behind(r, [1]);
      && Unpack(r, 1) == (r1, [1]) && r1.status == Running
      && UnpackBounds(r1, |b.lb|) == (Past(r, OpeningRecords(b)), b.lb, b.ub)
      && Faces(Past(r, OpeningRecords(b)), rest)
  {
    assert OpeningRecords(b) + rest == [[1]] + (BoundsRecords(b) + rest);
    RecordRead(r, [1], BoundsRecords(b) + rest);
    BoundsRead(Behind(r, [1]), b, rest);
    assert OpeningRecords(b)[1..] == BoundsRecords(b);
  }

  // ---------- allocatables ----------

  lemma AllocatedRead(r: Reader, b: Block, rest: seq<seq<int>>)
    requires b.Valid() && Faces(r, OpeningRecords(b) + [b.data] + rest)
    ensures UnpackAlloc(r, |b.lb|, true) == (Past(r, OpeningRecords(b) + [b.data]), AllocOut(Some(b)))
    ensures Faces(Past(r, OpeningRecords(b) + [b.data]), rest)
  {
    assert OpeningRecords(b) + [b.data] + rest == OpeningRecords(b) + ([b.data] + rest);
    OpeningRead(r, b, [b.data] + rest);
    RecordRead(Past(r, OpeningRecords(b)), b.data, rest);
    PastConcat(r, OpeningRecords(b), [b.data]);
    PastOne(Past(r, OpeningRecords(b)), b.data);
  }

  // ---------- pointers ----------

  /** Flag, bounds and index of a non-null pointer. */
  function IndexRecords(b: Block, idx: nat): seq<seq<int>> {
    OpeningRecords(b) + [[idx]]
  }

  lemma LookupRead(r: Reader, idx: nat, rest: seq<seq<int>>)
    requires Faces(r, [[idx]] + rest) && 1 <= idx <= |r.table|
    ensures UnpackPointer(r) == (Behind(r, [idx]), r.table[idx - 1], idx)
    ensures Faces(Behind(r, [idx]), rest)
  {
    RecordRead(r, [idx], rest);
  }

  /** What the call does once flag, bounds and index have been read. */
  lemma Stages(v: Variant, r: Reader, b: Block, r1: Reader, r2: Reader, ri: Reader, a: Addr, idx: int)
    requires b.Valid() && r.status == r1.status == r2.status == ri.status == Running
    requires Unpack(r, 1) == (r1, [1]) && UnpackBounds(r1, |b.lb|) == (r2, b.lb, b.ub)
    requires UnpackPointer(r2) == (ri, a, idx)
    ensures 1 <= idx <= |ri.table|
    ensures UnpackPtr(v, r, |b.lb|, true) ==
      if a != NULL then (ri, PtrOut(a, b.lb, ViewUpper(v, b.lb, b.ub)))
      else UnpackTarget(v, ri, b.lb, b.ub, idx, true)
  {
  }

  /** Flag, bounds and index come back one after the other. */
  lemma IndexRead(r: Reader, b: Block, idx: nat, rest: seq<seq<int>>) returns (r1: Reader, r2: Reader, ri: Reader)
    requires b.Valid() && Faces(r, IndexRecords(b, idx) + rest) && 1 <= idx <= |r.table|
    ensures r.status == r1.status == r2.status == ri.status == Running
    ensures Unpack(r, 1) == (r1, [1]) && UnpackBounds(r1, |b.lb|) == (r2, b.lb, b.ub)
    ensures UnpackPointer(r2) == (ri, r.table[idx - 1], idx)
    ensures ri == Past(r, IndexRecords(b, idx)) && Faces(ri, rest)
  {
    r1, r2 := Behind(r, [1]), Past(r, OpeningRecords(b));
    assert IndexRecords(b, idx) + rest == OpeningRecords(b) + ([[idx]] + rest);
    OpeningRead(r, b, [[idx]] + rest);
    PastPlace(r, OpeningRecords(b));
    LookupRead(r2, idx, rest);
    ri := Behind(r2, [idx]);
    PastConcat(r, OpeningRecords(b), [[idx]]);
    PastOne(r2, [idx]);
  }

  /** The call reaches the slot its index names; an address found there is returned, and for an empty
      slot a target is read. */
  lemma SlotRead(v: Variant, r: Reader, b: Block, idx: nat, rest: seq<seq<int>>)
    requires b.Valid() && Faces(r, IndexRecords(b, idx) + rest) && 1 <= idx <= |r.table|
    ensures var ri := Past(r, IndexRecords(b, idx));
      && Faces(ri, rest) && ri.table == r.table && ri.heap == r.heap && ri.file == r.file
      && UnpackPtr(v, r, |b.lb|, true) ==
           if r.table[idx - 1] != NULL then (ri, PtrOut(r.table[idx - 1], b.lb, ViewUpper(v, b.lb, b.ub)))
           else UnpackTarget(v, ri, b.lb, b.ub, idx, true)
  {
    var r1, r2, ri := IndexRead(r, b, idx, rest);
    PastPlace(r, IndexRecords(b, idx));
    Stages(v, r, b, r1, r2, ri, r.table[idx - 1], idx);
  }

  /** A target that was packed is read into a new block, whose address is stored if the text does so. */
  lemma TargetRead(v: Variant, r: Reader, b: Block, idx: int, rest: seq<seq<int>>)
    requires b.Valid() && Faces(r, [b.data] + rest) && 1 <= idx <= |r.table|
    ensures var next := |r.heap| + 1;
      var r' := Behind(r, b.data).(heap := r.heap + [b.data],
                                   table := if v.storesSlot then r.table[idx - 1 := next] else r.table);
      UnpackTarget(v, r, b.lb, b.ub, idx, true) == (r', PtrOut(next, b.lb, b.ub)) && Faces(r', rest)
  {
    RecordRead(r, b.data, rest);
  }

  // ---------- any one call ----------

  /** Where the pointer table of the reader stands once `seen` addresses have been seen. */
  ghost predicate Slots(v: Variant, table: seq<Addr>, seen: nat) {
    && seen <= |table|
    && forall j :: 0 <= j < |table| ==> table[j] == if v.storesSlot && j < seen then j + 1 else NULL
  }

  /** The result the pack call calls for; pointers are named by the order of first use. */
  function Expected(v: Variant, used: seq<Addr>, item: Item): Out
    requires item.Valid()
  {
    match item
    case Plain(d) => PlainOut(d)
    case Allocatable(value) => AllocOut(value)
    case Pointer(a, b) =>
      if a == NULL then PtrOut(NULL, [], [])
      else if a in used then PtrOut(IndexOf(used, a), b.lb, ViewUpper(v, b.lb, b.ub))
      else PtrOut(|used| + 1, b.lb, b.ub)
  }

  predicate IsNew(used: seq<Addr>, item: Item) {
    IsPointer(item) && item.addr !in used
  }

  function UsedAfter(used: seq<Addr>, item: Item): seq<Addr> {
    if IsNew(used, item) then used + [item.addr] else used
  }

  function HeapAfter(used: seq<Addr>, heap: seq<seq<int>>, item: Item): seq<seq<int>> {
    if IsNew(used, item) then heap + [item.target.data] else heap
  }

  /** What the reading program passes for a value it expects to be shaped like the packed one. */
  function ShapeOf(item: Item): Shape {
    match item
    case Plain(d) => PlainShape(|d|)
    case Allocatable(value) => AllocShape(if value.Some? then |value.value.lb| else 0)
    case Pointer(_, b) => PtrShape(|b.lb|)
  }

  /** The reader stands in front of the records of the call, and its table is as the calls before left it. */
  ghost predicate Ready(v: Variant, used: seq<Addr>, r: Reader, item: Item, rest: seq<seq<int>>) {
    && item.Valid()
    && Faces(r, RecordsOf(used, item) + rest)
    && Slots(v, r.table, |used|)
    && |UsedAfter(used, item)| <= |r.table|
    && |r.heap| == |used|
  }

  /** The call has taken its records and nothing else, and returned what was packed. */
  ghost predicate Answered(
      v: Variant, used: seq<Addr>, r: Reader, item: Item, res: (Reader, Out), rest: seq<seq<int>>)
  {
    && item.Valid()
    && Faces(res.0, rest)
    && res.0.file == r.file
    && res.0.numData == r.numData + |RecordsOf(used, item)|
    && res.1 == Expected(v, used, item)
    && res.0.heap == HeapAfter(used, r.heap, item)
    && |res.0.table| == |r.table|
    && Slots(v, res.0.table, |UsedAfter(used, item)|)
  }

  lemma PlainStep(v: Variant, used: seq<Addr>, r: Reader, item: Item, rest: seq<seq<int>>)
    requires Ready(v, used, r, item, rest) && item.Plain?
    ensures Answered(v, used, r, item, UnpackItem(v, r, ShapeOf(item), true), rest)
  {
    RecordRead(r, item.data, rest);
  }

  lemma AllocStep(v: Variant, used: seq<Addr>, r: Reader, item: Item, rest: seq<seq<int>>)
    requires Ready(v, used, r, item, rest) && item.Allocatable?
    ensures Answered(v, used, r, item, UnpackItem(v, r, ShapeOf(item), true), rest)
  {
    match item
    case Allocatable(None) => RecordRead(r, [0], rest);
    case Allocatable(Some(b)) =>
      AllocatedRead(r, b, rest);
      PastPlace(r, OpeningRecords(b) + [b.data]);
  }

  lemma NullStep(v: Variant, used: seq<Addr>, r: Reader, item: Item, rest: seq<seq<int>>)
    requires Ready(v, used, r, item, rest) && item.Pointer? && item.addr == NULL
    ensures Answered(v, used, r, item, UnpackItem(v, r, ShapeOf(item), true), rest)
  {
    RecordRead(r, [0], rest);
  }

  /** The records of a known and of a new pointer. */
  lemma PointerRecords(used: seq<Addr>, item: Item)
    requires IsPointer(item)
    ensures var b := item.target;
      RecordsOf(used, item) ==
      if item.addr in used then IndexRecords(b, IndexOf(used, item.addr))
      else IndexRecords(b, |used| + 1) + [b.data]
  {
  }

  lemma PointerCall(v: Variant, r: Reader, item: Item)
    requires item.Pointer?
    ensures UnpackItem(v, r, ShapeOf(item), true) == UnpackPtr(v, r, |item.target.lb|, true)
  {
  }

  lemma FoundRead(v: Variant, r: Reader, b: Block, idx: nat, rest: seq<seq<int>>)
    requires b.Valid() && Faces(r, IndexRecords(b, idx) + rest) && 1 <= idx <= |r.table|
    requires r.table[idx - 1] == idx
    ensures var ri := Past(r, IndexRecords(b, idx));
      && Faces(ri, rest) && ri == r.(pos := ri.pos, numData := r.numData + |IndexRecords(b, idx)|)
      && UnpackPtr(v, r, |b.lb|, true) == (ri, PtrOut(idx, b.lb, ViewUpper(v, b.lb, b.ub)))
  {
    SlotRead(v, r, b, idx, rest);
    PastPlace(r, IndexRecords(b, idx));
  }

  lemma FoundStep(v: Variant, used: seq<Addr>, r: Reader, item: Item, rest: seq<seq<int>>)
    requires Ready(v, used, r, item, rest) && IsPointer(item) && v.storesSlot && item.addr in used
    ensures Answered(v, used, r, item, UnpackItem(v, r, ShapeOf(item), true), rest)
  {
    PointerRecords(used, item);
    FoundRead(v, r, item.target, IndexOf(used, item.addr), rest);
    PointerCall(v, r, item);
  }

  /** The state behind a new target. */
  function Allocated(v: Variant, r: Reader, records: seq<seq<int>>, data: seq<int>, idx: int): Reader
    requires 1 <= idx <= |r.table|
  {
    Past(r, records).(heap := r.heap + [data],
                      table := if v.storesSlot then r.table[idx - 1 := |r.heap| + 1] else r.table)
  }

  lemma NewRead(v: Variant, r: Reader, b: Block, idx: nat, rest: seq<seq<int>>)
    requires b.Valid() && Faces(r, IndexRecords(b, idx) + ([b.data] + rest)) && 1 <= idx <= |r.table|
    requires r.table[idx - 1] == NULL
    ensures var r' := Allocated(v, r, IndexRecords(b, idx) + [b.data], b.data, idx);
      UnpackPtr(v, r, |b.lb|, true) == (r', PtrOut(|r.heap| + 1, b.lb, b.ub)) && Faces(r', rest)
  {
    SlotRead(v, r, b, idx, [b.data] + rest);
    TargetRead(v, Past(r, IndexRecords(b, idx)), b, idx, rest);
    PastConcat(r, IndexRecords(b, idx), [b.data]);
    PastOne(Past(r, IndexRecords(b, idx)), b.data);
  }

  lemma SlotsNext(v: Variant, table: seq<Addr>, seen: nat)
    requires Slots(v, table, seen) && seen < |table|
    ensures Slots(v, if v.storesSlot then table[seen := seen + 1] else table, seen + 1)
  {
  }

  lemma NewAnswered(v: Variant, used: seq<Addr>, r: Reader, item: Item, rest: seq<seq<int>>)
    requires Ready(v, used, r, item, rest) && IsNew(used, item)
    requires Faces(Allocated(v, r, RecordsOf(used, item), item.target.data, |used| + 1), rest)
    ensures var b := item.target;
      var r' := Allocated(v, r, RecordsOf(used, item), b.data, |used| + 1);
      Answered(v, used, r, item, (r', PtrOut(|used| + 1, b.lb, b.ub)), rest)
  {
    PastPlace(r, RecordsOf(used, item));
    SlotsNext(v, r.table, |used|);
  }

  lemma NewStep(v: Variant, used: seq<Addr>, r: Reader, item: Item, rest: seq<seq<int>>)
    requires Ready(v, used, r, item, rest) && IsNew(used, item)
    ensures Answered(v, used, r, item, UnpackItem(v, r, ShapeOf(item), true), rest)
  {
    var b, idx := item.target, |used| + 1;
    PointerRecords(used, item);
    assert IndexRecords(b, idx) + [b.data] + rest == IndexRecords(b, idx) + ([b.data] + rest);
    NewRead(v, r, b, idx, rest);
    NewAnswered(v, used, r, item, rest);
    PointerCall(v, r, item);
  }

  /** Any one call whose pointer slot behaves returns the packed value and takes exactly its records. */
  lemma CallStep(v: Variant, used: seq<Addr>, r: Reader, item: Item, rest: seq<seq<int>>)
    requires Ready(v, used, r, item, rest)
    requires v.storesSlot || !IsPointer(item) || item.addr !in used
    ensures Answered(v, used, r, item, UnpackItem(v, r, ShapeOf(item), true), rest)
  {
    match item
    case Plain(_) => PlainStep(v, used, r, item, rest);
    case Allocatable(_) => AllocStep(v, used, r, item, rest);
    case Pointer(a, _) =>
      if a == NULL {
        NullStep(v, used, r, item, rest);
      } else if a in used {
        FoundStep(v, used, r, item, rest);
      } else {
        NewStep(v, used, r, item, rest);
      }
  }

  // ---------- a repeat without a stored slot ----------

  /** A target read where none was written: it takes whatever cells come next, if there are enough. */
  ghost predicate TookFollowing(r: Reader, b: Block, res: (Reader, Out)) {
    var count := |b.data|;
    && (res.0.status == Running <==> r.pos + 1 + count <= |r.file|)
    && (res.0.status == Running ==>
          && res.0.pos == r.pos + 1 + count
          && res.0.heap == r.heap + [r.file[r.pos + 1..r.pos + 1 + count]]
          && res.1 == PtrOut(|r.heap| + 1, b.lb, b.ub))
  }

  lemma FollowingTaken(v: Variant, r: Reader, b: Block, idx: int, rest: seq<seq<int>>)
    requires b.Valid() && Faces(r, rest) && 1 <= idx <= |r.table|
    ensures TookFollowing(r, b, UnpackTarget(v, r, b.lb, b.ub, idx, true))
  {
    if rest != [] {
      HeadOfRest(r.file, r.pos, r.numData + 1, rest[0], FramedFrom(r.numData + 1, rest[1..]));
    }
  }

  /** Without the stored slot a repeated pointer is taken for a new one: behind the records of the call
      the reader goes on to read a target that was not written. The number check passes, and the reader
      is left running exactly when the file has as many cells left as the target. */
  lemma RepeatReadsPastRecord(v: Variant, used: seq<Addr>, r: Reader, item: Item, rest: seq<seq<int>>)
    requires Ready(v, used, r, item, rest) && !v.storesSlot
    requires IsPointer(item) && item.addr in used
    ensures var ri := Past(r, RecordsOf(used, item));
      Faces(ri, rest) && TookFollowing(ri, item.target, UnpackItem(v, r, ShapeOf(item), true))
  {
    var b, idx := item.target, IndexOf(used, item.addr);
    PointerRecords(used, item);
    SlotRead(v, r, b, idx, rest);
    FollowingTaken(v, Past(r, IndexRecords(b, idx)), b, idx, rest);
  }
}

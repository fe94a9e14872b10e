/**
 Reading a checkpoint back: the reader stays in step with the writer, every value comes
 back, and two pointers are equal afterwards exactly when they were before. For the
 pointer routine the repaired text and the emitted one are both treated.
 */
module RegRoundTrip {
  import opened RegReading
  import opened RegStream
  import opened RegWriting

  // ---------- the file and its reading ----------

  function Shapes(items: seq<Item>): (shapes: seq<Shape>)
    ensures |shapes| == |items|
  {
    seq(|items|, i requires 0 <= i < |items| => ShapeOf(items[i]))
  }

  ghost predicate AllValid(items: seq<Item>) {
    forall item <- items :: item.Valid()
  }

  /** The closed file, behind whatever the unit held before. */
  function CheckpointFile(before: seq<int>, w: Writer): seq<int> {
    before + [Close(w).header] + w.body
  }

  /** The first k calls of the reader on that file. */
  function ReadBack(v: Variant, before: seq<int>, capacity: nat, items: seq<Item>, k: nat): (Reader, seq<Out>)
    requires k <= |items|
  {
    UnpackAll(v, Open(CheckpointFile(before, Written(capacity, items)), |before|), Shapes(items[..k]), Granted(k))
  }

  lemma {:induction false} ReadNext(v: Variant, before: seq<int>, capacity: nat, items: seq<Item>, k: nat)
    requires k < |items|
    ensures var (r, outs) := ReadBack(v, before, capacity, items, k);
      var (r', out) := UnpackItem(v, r, ShapeOf(items[k]), true);
      ReadBack(v, before, capacity, items, k + 1) == (r', outs + [out])
  {
    assert Shapes(items[..k + 1])[..k] == Shapes(items[..k]);
    assert Granted(k + 1)[..k] == Granted(k);
  }

  /** The records of the calls from k on. */
  function RestRecords(items: seq<Item>, k: nat): seq<seq<int>>
    requires k <= |items|
    decreases |items| - k
  {
    if k == |items| then []
    else RecordsOf(FirstUses(items[..k]), items[k]) + RestRecords(items, k + 1)
  }

  lemma {:induction false} RecordsSplit(items: seq<Item>, k: nat)
    requires k <= |items|
    ensures AllRecords(items[..k]) + RestRecords(items, k) == AllRecords(items)
    decreases |items| - k
  {
    if k == |items| {
      assert items[..k] == items;
    } else {
      RecordsSplit(items, k + 1);
      ListsNext(items, k);
      Regroup(AllRecords(items[..k]), RecordsOf(FirstUses(items[..k]), items[k]), RestRecords(items, k + 1));
    }
  }

  lemma Regroup(a: seq<seq<int>>, b: seq<seq<int>>, c: seq<seq<int>>)
    ensures a + (b + c) == a + b + c
  {
  }

  /** What an error-free run leaves in the file, whatever the size of the table was. */
  lemma RunWrites(before: seq<int>, capacity: nat, items: seq<Item>)
    requires Written(capacity, items).status == Running
    ensures CheckpointFile(before, Written(capacity, items)) ==
            before + [|FirstUses(items)|] + Framed(AllRecords(items))
    ensures Written(capacity, items).body == Framed(AllRecords(items))
  {
    FileIsFramedRecords(capacity, items);
    HeaderTellsCompletion(capacity, items, Granted(|items|));
  }

  /** Every prefix of an error-free run is error-free. */
  lemma {:induction false} PrefixRuns(capacity: nat, items: seq<Item>, k: nat)
    requires Written(capacity, items).status == Running && k <= |items|
    ensures Written(capacity, items[..k]).status == Running
  {
    if k == |items| {
      assert items[..k] == items;
    } else {
      var n := |items| - 1;
      assert items[..n][..k] == items[..k];
      FileIsFramedRecords(capacity, items);
      PrefixRuns(capacity, items[..n], k);
    }
  }

  // ---------- in step ----------

  /** Everything known about the reader after the first k calls, as long as it stayed in step. */
  ghost predicate Restored(v: Variant, before: seq<int>, capacity: nat, items: seq<Item>, k: nat)
    requires k <= |items|
  {
    var (r, outs) := ReadBack(v, before, capacity, items, k);
    && Faces(r, RestRecords(items, k))
    && r.file == CheckpointFile(before, Written(capacity, items))
    && r.numData == |AllRecords(items[..k])|
    && |r.table| == |FirstUses(items)|
    && Slots(v, r.table, |FirstUses(items[..k])|)
    && r.heap == Targets(items[..k])
    && forall i :: 0 <= i < k ==> items[i].Valid() && outs[i] == Expected(v, FirstUses(items[..i]), items[i])
  }

  lemma OpenedReady(before: seq<int>, uses: nat, records: seq<seq<int>>)
    ensures var r := Open(before + [uses] + Framed(records), |before|);
      && Faces(r, records) && r.numData == 0 && |r.table| == uses && r.heap == []
      && forall j :: 0 <= j < uses ==> r.table[j] == NULL
  {
    var file := before + [uses] + Framed(records);
    FramedIsFrom(records);
    assert file[|before| + 1..] == Framed(records);
  }

  lemma RestoredAtStart(v: Variant, before: seq<int>, capacity: nat, items: seq<Item>)
    requires Written(capacity, items).status == Running
    ensures Restored(v, before, capacity, items, 0)
  {
    RunWrites(before, capacity, items);
    OpenedReady(before, |FirstUses(items)|, AllRecords(items));
    RecordsSplit(items, 0);
    assert items[..0] == [] && Shapes(items[..0]) == [];
    assert AllRecords([]) + RestRecords(items, 0) == RestRecords(items, 0);
  }

  /** One more call, seen from the lists. */
  lemma ListsNext(items: seq<Item>, k: nat)
    requires k < |items|
    ensures FirstUses(items[..k + 1]) == UsedAfter(FirstUses(items[..k]), items[k])
    ensures Targets(items[..k + 1]) == HeapAfter(FirstUses(items[..k]), Targets(items[..k]), items[k])
    ensures AllRecords(items[..k + 1]) == AllRecords(items[..k]) + RecordsOf(FirstUses(items[..k]), items[k])
  {
    assert items[..k + 1][..k] == items[..k];
  }

  lemma ReadyForNext(v: Variant, before: seq<int>, capacity: nat, items: seq<Item>, k: nat)
    requires AllValid(items) && k < |items| && Restored(v, before, capacity, items, k)
    ensures var r := ReadBack(v, before, capacity, items, k).0;
      Ready(v, FirstUses(items[..k]), r, items[k], RestRecords(items, k + 1))
  {
    ListsNext(items, k);
    UsesPrefix(items, k + 1);
  }

  lemma RestoredNext(
      v: Variant, before: seq<int>, capacity: nat, items: seq<Item>, k: nat, r: Reader, outs: seq<Out>,
      res: (Reader, Out))
    requires k < |items| && Restored(v, before, capacity, items, k)
    requires ReadBack(v, before, capacity, items, k) == (r, outs)
    requires ReadBack(v, before, capacity, items, k + 1) == (res.0, outs + [res.1])
    requires Answered(v, FirstUses(items[..k]), r, items[k], res, RestRecords(items, k + 1))
    ensures Restored(v, before, capacity, items, k + 1)
  {
    ListsNext(items, k);
  }

  lemma {:induction false} RestoredStep(
      v: Variant, before: seq<int>, capacity: nat, items: seq<Item>, k: nat, next: nat)
    requires AllValid(items) && k < |items| && next == k + 1 && Restored(v, before, capacity, items, k)
    requires v.storesSlot || !Repeats(items, k)
    ensures Restored(v, before, capacity, items, next)
  {
    var (r, outs) := ReadBack(v, before, capacity, items, k);
    ReadyForNext(v, before, capacity, items, k);
    CallStep(v, FirstUses(items[..k]), r, items[k], RestRecords(items, k + 1));
    ReadNext(v, before, capacity, items, k);
    RestoredNext(v, before, capacity, items, k, r, outs, UnpackItem(v, r, ShapeOf(items[k]), true));
  }

  /** The reader stays in step through every call up to the first repeat, or throughout when slots
      are stored. */
  lemma {:induction false} StaysInStep(v: Variant, before: seq<int>, capacity: nat, items: seq<Item>, k: nat)
    requires AllValid(items) && Written(capacity, items).status == Running && k <= |items|
    requires v.storesSlot || forall i :: 0 <= i < k ==> !Repeats(items, i)
    ensures Restored(v, before, capacity, items, k) && ConsumesExactly(v, before, capacity, items, k)
  {
    RestoredUpTo(v, before, capacity, items, k);
    PlaceOf(v, before, capacity, items, k);
  }

  lemma {:induction false} RestoredUpTo(v: Variant, before: seq<int>, capacity: nat, items: seq<Item>, k: nat)
    requires AllValid(items) && Written(capacity, items).status == Running && k <= |items|
    requires v.storesSlot || forall i :: 0 <= i < k ==> !Repeats(items, i)
    ensures Restored(v, before, capacity, items, k)
  {
    if k == 0 {
      RestoredAtStart(v, before, capacity, items);
    } else {
      RestoredUpTo(v, before, capacity, items, k - 1);
      RestoredStep(v, before, capacity, items, k - 1, k);
    }
  }

  /** Call k leaves the reader running and exactly behind the records the matching pack call wrote. */
  ghost predicate ConsumesExactly(v: Variant, before: seq<int>, capacity: nat, items: seq<Item>, k: nat)
    requires k <= |items|
  {
    var r := ReadBack(v, before, capacity, items, k).0;
    r.status == Running && r.pos == |before| + 1 + |Written(capacity, items[..k]).body|
  }

  /** Where the records of the first k calls end. */
  lemma BodyLength(capacity: nat, items: seq<Item>, k: nat)
    requires Written(capacity, items).status == Running && k <= |items|
    ensures |Written(capacity, items).body| ==
            |Written(capacity, items[..k]).body| + |FramedFrom(|AllRecords(items[..k])|, RestRecords(items, k))|
  {
    PrefixRuns(capacity, items, k);
    FileIsFramedRecords(capacity, items);
    FileIsFramedRecords(capacity, items[..k]);
    RecordsSplit(items, k);
    FramedLength(AllRecords(items[..k]), RestRecords(items, k));
  }

  lemma FramedLength(a: seq<seq<int>>, b: seq<seq<int>>)
    ensures |Framed(a + b)| == |Framed(a)| + |FramedFrom(|a|, b)|
  {
    SameLength(a + b);
    SameLength(a);
    LengthsAdd(a, b);
  }

  lemma SameLength(records: seq<seq<int>>)
    ensures |Framed(records)| == |FramedFrom(0, records)|
  {
    FramedIsFrom(records);
  }

  lemma LengthsAdd(a: seq<seq<int>>, b: seq<seq<int>>)
    ensures |FramedFrom(0, a + b)| == |FramedFrom(0, a)| + |FramedFrom(|a|, b)|
  {
    FramedFromConcat(0, a, b);
  }

  lemma PlaceOf(v: Variant, before: seq<int>, capacity: nat, items: seq<Item>, k: nat)
    requires Written(capacity, items).status == Running && k <= |items| && Restored(v, before, capacity, items, k)
    ensures ConsumesExactly(v, before, capacity, items, k)
  {
    var r := ReadBack(v, before, capacity, items, k).0;
    BodyLength(capacity, items, k);
    assert |r.file| == |before| + 1 + |Written(capacity, items).body|;
    assert |r.file[r.pos..]| == |r.file| - r.pos;
  }

  // ---------- the emitted text ----------

  lemma {:induction false} FirstRepeat(items: seq<Item>) returns (k: nat)
    requires !NoRepeats(items)
    ensures IsFirstRepeat(items, k)
  {
    k := 0;
    while !Repeats(items, k)
      invariant k < |items| && forall i :: 0 <= i < k ==> !Repeats(items, i)
      decreases |items| - k
    {
      k := k + 1;
    }
  }

  predicate IsFirstRepeat(items: seq<Item>, k: nat) {
    k < |items| && Repeats(items, k) && forall i :: 0 <= i < k ==> !Repeats(items, i)
  }

  /** The first repeat: the reader `ri` behind the records of the call, and what the call makes of the rest. */
  lemma AtFirstRepeat(v: Variant, before: seq<int>, capacity: nat, items: seq<Item>, k: nat)
    returns (ri: Reader, res: (Reader, Out))
    requires AllValid(items) && Written(capacity, items).status == Running && !v.storesSlot && IsFirstRepeat(items, k)
    ensures Faces(ri, RestRecords(items, k + 1)) && TookFollowing(ri, items[k].target, res)
    ensures ri.pos == |before| + 1 + |Written(capacity, items[..k + 1]).body|
    ensures ri.heap == Targets(items[..k]) && ri.file == CheckpointFile(before, Written(capacity, items))
    ensures ReadBack(v, before, capacity, items, k + 1) == (res.0, ReadBack(v, before, capacity, items, k).1 + [res.1])
    ensures Restored(v, before, capacity, items, k)
  {
    var used, rest := FirstUses(items[..k]), RestRecords(items, k + 1);
    StaysInStep(v, before, capacity, items, k);
    var r := ReadBack(v, before, capacity, items, k).0;
    ReadyForNext(v, before, capacity, items, k);
    RepeatReadsPastRecord(v, used, r, items[k], rest);
    ReadNext(v, before, capacity, items, k);
    ri := Past(r, RecordsOf(used, items[k]));
    res := UnpackItem(v, r, ShapeOf(items[k]), true);
    PastPlace(r, RecordsOf(used, items[k]));
    ListsNext(items, k);
    PlaceBehind(before, capacity, items, k + 1, ri);
  }

  lemma PlaceBehind(before: seq<int>, capacity: nat, items: seq<Item>, k: nat, r: Reader)
    requires Written(capacity, items).status == Running && k <= |items|
    requires Faces(r, RestRecords(items, k)) && r.numData == |AllRecords(items[..k])|
    requires r.file == CheckpointFile(before, Written(capacity, items))
    ensures r.pos == |before| + 1 + |Written(capacity, items[..k]).body|
  {
    BodyLength(capacity, items, k);
    assert |r.file| == |before| + 1 + |Written(capacity, items).body|;
    assert |r.file[r.pos..]| == |r.file| - r.pos;
  }

  /** The emitted reader consumes after each call exactly the matching records if and only if no
      address is packed twice. */
  lemma {:induction false} EmittedReaderInStepExactly(v: Variant, before: seq<int>, capacity: nat, items: seq<Item>)
    requires AllValid(items) && Written(capacity, items).status == Running && !v.storesSlot
    ensures (forall k :: 0 <= k <= |items| ==> ConsumesExactly(v, before, capacity, items, k)) <==> NoRepeats(items)
  {
    if NoRepeats(items) {
      forall k | 0 <= k <= |items| ensures ConsumesExactly(v, before, capacity, items, k) {
        StaysInStep(v, before, capacity, items, k);
      }
    } else {
      var k := FirstRepeat(items);
      var ri, res := AtFirstRepeat(v, before, capacity, items, k);
      assert !ConsumesExactly(v, before, capacity, items, k + 1);
    }
  }

  /** At the first repeat the emitted reader runs on if and only if as many cells as the repeated target
      holds, and a number, follow the records of the call. */
  lemma EmittedRunsOnExactly(v: Variant, before: seq<int>, capacity: nat, items: seq<Item>, k: nat)
    requires AllValid(items) && Written(capacity, items).status == Running && !v.storesSlot && IsFirstRepeat(items, k)
    ensures ReadBack(v, before, capacity, items, k + 1).0.status == Running <==>
      |Written(capacity, items[..k + 1]).body| + 1 + |items[k].target.data| <= |Written(capacity, items).body|
  {
    var ri, res := AtFirstRepeat(v, before, capacity, items, k);
  }

  /** The number check does not notice: a repeat followed by another call, whose first record holds
      at least as many cells as the repeated target, goes through and returns cells of that record. */
  lemma {:induction false} EmittedRepeatGoesUnnoticed(before: seq<int>, capacity: nat, items: seq<Item>, k: nat)
    requires AllValid(items) && Written(capacity, items).status == Running && IsFirstRepeat(items, k) && k + 1 < |items|
    requires |items[k].target.data| <= |RecordsOf(FirstUses(items[..k + 1]), items[k + 1])[0]|
    ensures var (r, outs) := ReadBack(EMITTED, before, capacity, items, k + 1);
      var record := RecordsOf(FirstUses(items[..k + 1]), items[k + 1])[0];
      var count := |items[k].target.data|;
      && r.status == Running
      && r.pos == |before| + 1 + |Written(capacity, items[..k + 1]).body| + 1 + count
      && r.heap == Targets(items[..k]) + [record[..count]]
      && outs[k] == PtrOut(|r.heap|, items[k].target.lb, items[k].target.ub)
  {
    var ri, res := AtFirstRepeat(EMITTED, before, capacity, items, k);
    NextRecord(items, k + 1);
    CellsTaken(ri, RestRecords(items, k + 1), items[k].target, res);
  }

  lemma NextRecord(items: seq<Item>, k: nat)
    requires k < |items|
    ensures RestRecords(items, k) != [] && RestRecords(items, k)[0] == RecordsOf(FirstUses(items[..k]), items[k])[0]
  {
  }

  /** The cells taken lie in the record that follows. */
  lemma CellsTaken(r: Reader, records: seq<seq<int>>, b: Block, res: (Reader, Out))
    requires Faces(r, records) && records != [] && TookFollowing(r, b, res) && |b.data| <= |records[0]|
    ensures var count := |b.data|;
      && res.0.status == Running && res.0.pos == r.pos + 1 + count
      && res.0.heap == r.heap + [records[0][..count]] && res.1 == PtrOut(|r.heap| + 1, b.lb, b.ub)
  {
    HeadOfRest(r.file, r.pos, r.numData + 1, records[0], FramedFrom(r.numData + 1, records[1..]));
    FrontOfPart(r.file, r.pos + 1, |records[0]|, |b.data|);
  }

  lemma FrontOfPart(cells: seq<int>, from: nat, size: nat, count: nat)
    requires count <= size && from + size <= |cells|
    ensures cells[from..from + count] == cells[from..from + size][..count]
  {
  }

  /** A repeat that is read without a stop gets an address of its own: it differs from those of all
      pointers before it, also of those to the same target. */
  lemma EmittedBreaksSharing(before: seq<int>, capacity: nat, items: seq<Item>, k: nat, i: nat)
    requires AllValid(items) && Written(capacity, items).status == Running && IsFirstRepeat(items, k)
    requires ReadBack(EMITTED, before, capacity, items, k + 1).0.status == Running
    requires i < k && items[i].Pointer?
    ensures var outs := ReadBack(EMITTED, before, capacity, items, k + 1).1;
      outs[i].PtrOut? && outs[k].PtrOut? && outs[i].addr < outs[k].addr
  {
    var ri, res := AtFirstRepeat(EMITTED, before, capacity, items, k);
    var outs := ReadBack(EMITTED, before, capacity, items, k).1;
    assert outs[i] == Expected(EMITTED, FirstUses(items[..i]), items[i]);
    if IsPointer(items[i]) {
      assert items[..k][..i] == items[..i] && items[..k][i] == items[i];
      PointerNames(EMITTED, items[..k], i);
    }
  }

  // ---------- values and sharing ----------

  /** Every dimension is empty, with the bounds an empty dimension reports; a scalar has none. */
  predicate IsHollow(b: Block) {
    forall i :: 0 <= i < |b.lb| && i < |b.ub| ==> b.ub[i] == b.lb[i] - 1
  }

  lemma HollowKeepsBounds(b: Block)
    requires |b.lb| == |b.ub|
    ensures ShortUpper(b.lb, b.ub) == b.ub <==> IsHollow(b)
  {
    var s := ShortUpper(b.lb, b.ub);
    assert forall i :: 0 <= i < |b.ub| ==> (s[i] == b.ub[i] <==> b.ub[i] == b.lb[i] - 1);
  }

  /** The packed value came back: same elements, bounds and null flag. */
  ghost predicate Matches(out: Out, heap: seq<seq<int>>, item: Item) {
    match item
    case Plain(d) => out == PlainOut(d)
    case Allocatable(value) => out == AllocOut(value)
    case Pointer(a, b) =>
      && out.PtrOut?
      && (out.addr == NULL <==> a == NULL)
      && (a != NULL ==>
            && out.addr <= |heap|
            && out.lb == b.lb && out.ub == b.ub
            && b.data <= heap[out.addr - 1])
  }

  /** Elements packed at the first use of the address of call k. */
  function FirstTarget(items: seq<Item>, k: nat): seq<int>
    requires k < |items| && IsPointer(items[k])
  {
    FirstUsesExact(items);
    Targets(items)[IndexOf(FirstUses(items), items[k].addr) - 1]
  }

  /** Every pointer comes back named by the position of its address among the first uses. */
  lemma {:induction false} PointerNames(v: Variant, items: seq<Item>, k: nat)
    requires k < |items| && IsPointer(items[k]) && items[k].Valid()
    ensures items[k].addr in FirstUses(items)
    ensures Expected(v, FirstUses(items[..k]), items[k]).addr == IndexOf(FirstUses(items), items[k].addr)
  {
    var a := items[k].addr;
    var used := FirstUses(items[..k]);
    UsesPrefix(items, k + 1);
    assert items[..k + 1][..k] == items[..k];
    if a in used {
      UsesPrefix(items, k);
      PrefixIndex(used, FirstUses(items), a);
    } else {
      FreshIndex(used, a);
      PrefixIndex(used + [a], FirstUses(items), a);
    }
  }

  lemma {:induction false} NewTarget(items: seq<Item>, k: nat)
    requires k < |items| && IsPointer(items[k]) && items[k].Valid() && !Repeats(items, k)
    ensures FirstTarget(items, k) == items[k].target.data
  {
    var used := FirstUses(items[..k]);
    PointerNames(REPAIRED, items, k);
    assert IndexOf(FirstUses(items), items[k].addr) == |used| + 1;
    UsesPrefix(items, k + 1);
    assert items[..k + 1][..k] == items[..k];
    assert Targets(items)[|used|] == Targets(items[..k + 1])[|used|];
  }

  /** The call is no repeat, or the shared view has the packed shape and lies within the block
      written at the first use. */
  predicate ComesBack(v: Variant, items: seq<Item>, k: nat)
    requires k < |items|
  {
    !Repeats(items, k) ||
    ((v.fullShape || IsHollow(items[k].target)) && items[k].target.data <= FirstTarget(items, k))
  }

  /** Reading back with stored slots: the whole file is consumed without an error, and the value of
      each call is restored exactly under that condition. */
  lemma {:induction false} CheckpointRestored(v: Variant, before: seq<int>, capacity: nat, items: seq<Item>)
    requires AllValid(items) && Written(capacity, items).status == Running && v.storesSlot
    ensures var (r, outs) := ReadBack(v, before, capacity, items, |items|);
      && r.status == Running
      && r.pos == |CheckpointFile(before, Written(capacity, items))|
      && r.numData == |AllRecords(items)|
      && forall k :: 0 <= k < |items| ==>
           (Matches(outs[k], r.heap, items[k]) <==> ComesBack(v, items, k))
  {
    var n := |items|;
    StaysInStep(v, before, capacity, items, n);
    assert items[..n] == items;
    FileIsFramedRecords(capacity, items);
    var (r, outs) := ReadBack(v, before, capacity, items, n);
    forall k | 0 <= k < n
      ensures Matches(outs[k], r.heap, items[k]) <==> ComesBack(v, items, k)
    {
      assert outs[k] == Expected(v, FirstUses(items[..k]), items[k]);
      assert items[k].Valid();
      ValueRestored(v, items, k);
    }
  }

  /** With the repaired text every value comes back whose shared view lies within the block written at
      the first use, and no other. */
  lemma {:induction false} RepairedRestores(before: seq<int>, capacity: nat, items: seq<Item>)
    requires AllValid(items) && Written(capacity, items).status == Running
    ensures var (r, outs) := ReadBack(REPAIRED, before, capacity, items, |items|);
      && r.status == Running && r.pos == |CheckpointFile(before, Written(capacity, items))|
      && forall k :: 0 <= k < |items| ==>
           (Matches(outs[k], r.heap, items[k]) <==>
            !Repeats(items, k) || items[k].target.data <= FirstTarget(items, k))
  {
    CheckpointRestored(REPAIRED, before, capacity, items);
  }

  /** The expected result of call k matches the packed value under exactly this condition. */
  lemma {:induction false} ValueRestored(v: Variant, items: seq<Item>, k: nat)
    requires k < |items| && items[k].Valid()
    ensures Matches(Expected(v, FirstUses(items[..k]), items[k]), Targets(items), items[k]) <==>
      ComesBack(v, items, k)
  {
    if IsPointer(items[k]) {
      PointerNames(v, items, k);
      if !Repeats(items, k) {
        NewTarget(items, k);
      }
      HollowKeepsBounds(items[k].target);
    }
  }

  /** After reading back with stored slots, two pointers are equal exactly when the packed ones were. */
  lemma {:induction false} SharingRestored(
      v: Variant, before: seq<int>, capacity: nat, items: seq<Item>, i: nat, j: nat)
    requires AllValid(items) && Written(capacity, items).status == Running && v.storesSlot
    requires i < |items| && j < |items| && items[i].Pointer? && items[j].Pointer?
    ensures var outs := ReadBack(v, before, capacity, items, |items|).1;
      && outs[i].PtrOut? && outs[j].PtrOut?
      && (outs[i].addr == outs[j].addr <==> items[i].addr == items[j].addr)
  {
    PointerReturned(v, before, capacity, items, i);
    PointerReturned(v, before, capacity, items, j);
  }

  /** A pointer comes back null if it was, and else with the place of its address among the first uses. */
  lemma PointerReturned(v: Variant, before: seq<int>, capacity: nat, items: seq<Item>, k: nat)
    requires AllValid(items) && Written(capacity, items).status == Running && v.storesSlot
    requires k < |items| && items[k].Pointer?
    ensures var out, a := ReadBack(v, before, capacity, items, |items|).1[k], items[k].addr;
      && out.PtrOut? && (a == NULL ==> out.addr == NULL)
      && (a != NULL ==> a in FirstUses(items) && out.addr == IndexOf(FirstUses(items), a))
  {
    OutAsExpected(v, before, capacity, items, k);
    if items[k].addr != NULL {
      PointerNames(v, items, k);
    }
  }

  lemma OutAsExpected(v: Variant, before: seq<int>, capacity: nat, items: seq<Item>, k: nat)
    requires AllValid(items) && Written(capacity, items).status == Running && v.storesSlot && k < |items|
    ensures items[k].Valid()
    ensures ReadBack(v, before, capacity, items, |items|).1[k] == Expected(v, FirstUses(items[..k]), items[k])
  {
    StaysInStep(v, before, capacity, items, |items|);
  }

  /** With the emitted text and no repeats, everything is restored as well. */
  lemma {:induction false} EmittedRestoresWithoutRepeats(before: seq<int>, capacity: nat, items: seq<Item>)
    requires AllValid(items) && Written(capacity, items).status == Running && NoRepeats(items)
    ensures var (r, outs) := ReadBack(EMITTED, before, capacity, items, |items|);
      && r.status == Running
      && r.pos == |CheckpointFile(before, Written(capacity, items))|
      && forall k :: 0 <= k < |items| ==> Matches(outs[k], r.heap, items[k])
  {
    var n := |items|;
    StaysInStep(EMITTED, before, capacity, items, n);
    assert items[..n] == items;
    var (r, outs) := ReadBack(EMITTED, before, capacity, items, n);
    forall k | 0 <= k < n ensures Matches(outs[k], r.heap, items[k]) {
      assert outs[k] == Expected(EMITTED, FirstUses(items[..k]), items[k]);
      assert !Repeats(items, k);
      if IsPointer(items[k]) {
        PointerNames(EMITTED, items, k);
        NewTarget(items, k);
      }
    }
  }

  /** A shared view of extent UB-LB has as many elements as the packed array only if that is a
      scalar or empty; otherwise it has fewer. */
  lemma {:induction false} ShortViewLosesElements(lb: seq<int>, ub: seq<int>)
    requires |lb| == |ub|
    ensures Extent(lb, ShortUpper(lb, ub)) <= Extent(lb, ub)
    ensures Extent(lb, ShortUpper(lb, ub)) == Extent(lb, ub) <==> lb == [] || Extent(lb, ub) == 0
  {
    if lb != [] {
      ShortViewLosesElements(lb[1..], ub[1..]);
      assert ShortUpper(lb, ub)[1..] == ShortUpper(lb[1..], ub[1..]);
      var s, t := Span(lb[0], ub[0]), Extent(lb[1..], ub[1..]);
      var s', t' := Span(lb[0], ShortUpper(lb, ub)[0]), Extent(lb[1..], ShortUpper(lb[1..], ub[1..]));
      ProductShrinks(s, t, s', t');
    }
  }

  lemma {:induction false} ProductShrinks(s: nat, t: nat, s': nat, t': nat)
    requires s' == (if s == 0 then 0 else s - 1) && t' <= t
    ensures s' * t' <= s * t && (s' * t' == s * t <==> s * t == 0)
  {
    if s == 0 {
    } else {
      assert s' * t' <= s' * t;
      assert s' * t == s * t - t;
    }
  }
}

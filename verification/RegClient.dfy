/**
 Whole checkpoints through the RegFile object: one program packs a list of values and closes the
 file, another opens a file and unpacks a list of values, and a third does the one after the other.
 */
module RegClient {
  import opened RegStream
  import opened RegFiles
  import opened RegWriting
  import opened RegRoundTrip
  import opened RegShapes

  /** The pack call for the value. */
  method PackValue(rf: RegFile, item: Item, granted: bool)
    requires rf.Writing()
    modifies rf, rf.pointers
    ensures rf.Writing() && rf.AsWriter() == PackItem(old(rf.AsWriter()), item, granted)
    ensures rf.pointers == old(rf.pointers) || rf.pointers == null || fresh(rf.pointers)
    ensures rf.offset == old(rf.offset) && old(rf.unit) <= rf.unit
  {
    match item
    case Plain(data) => rf.RegPack(data);
    case Allocatable(value) => rf.RegPackAlloc(value);
    case Pointer(ptr, target) => rf.RegPackPtr(ptr, target, granted);
  }

  /** The unpack call of that shape. */
  method UnpackValue(v: Variant, rf: RegFile, shape: Shape, granted: bool) returns (out: Out)
    requires rf.Reading()
    modifies rf`numData, rf`pos, rf`status, rf`heap, rf.pointers
    ensures rf.Reading() && (rf.AsReader(), out) == UnpackItem(v, old(rf.AsReader()), shape, granted)
  {
    match shape
    case PlainShape(count) =>
      var data := rf.RegUnpack(count);
      out := if rf.status == Running then PlainOut(data) else NoValue;
    case AllocShape(rank) => out := rf.RegUnpackAlloc(rank, granted);
    case PtrShape(rank) => out := rf.RegUnpackPtr(v, rank, granted);
  }

  lemma PackedNext(w: Writer, items: seq<Item>, granted: seq<bool>, k: nat)
    requires |granted| == |items| && k < |items|
    ensures PackAll(w, items[..k + 1], granted[..k + 1]) ==
            PackItem(PackAll(w, items[..k], granted[..k]), items[k], granted[k])
  {
    assert items[..k + 1][..k] == items[..k] && granted[..k + 1][..k] == granted[..k];
  }

  lemma UnpackedNext(v: Variant, r: Reader, shapes: seq<Shape>, granted: seq<bool>, k: nat)
    requires |granted| == |shapes| && k < |shapes|
    ensures var (r1, outs) := UnpackAll(v, r, shapes[..k], granted[..k]);
      var (r2, out) := UnpackItem(v, r1, shapes[k], granted[k]);
      UnpackAll(v, r, shapes[..k + 1], granted[..k + 1]) == (r2, outs + [out])
  {
    assert shapes[..k + 1][..k] == shapes[..k] && granted[..k + 1][..k] == granted[..k];
  }

  /** Writes a checkpoint behind whatever the unit held: what is left there is the closed file of the
      run, also when an allocation was refused on the way. */
  method SaveCheckpoint(before: seq<int>, items: seq<Item>, granted: seq<bool>) returns (file: seq<int>, err: bool)
    requires |granted| == |items|
    ensures var w := PackAll(NewWriter(FRESH_TABLE_SIZE), items, granted);
      file == CheckpointFile(before, w) && (err <==> w.status != Running)
  {
    var rf := new RegFile();
    err := rf.InitRegFile(before, true, true);
    var k := 0;
    while k < |items|
      invariant k <= |items| && fresh(rf) && (rf.pointers != null ==> fresh(rf.pointers))
      invariant rf.Writing() && rf.offset == |before| && before <= rf.unit && |before| < |rf.unit|
      invariant rf.AsWriter() == PackAll(NewWriter(FRESH_TABLE_SIZE), items[..k], granted[..k])
    {
      PackValue(rf, items[k], granted[k]);
      PackedNext(NewWriter(FRESH_TABLE_SIZE), items, granted, k);
      k := k + 1;
    }
    assert items[..k] == items && granted[..k] == granted;
    TableIsFirstUses(FRESH_TABLE_SIZE, items, granted);
    ghost var unit, w := rf.unit, rf.AsWriter();
    err := rf.CloseRegFile(true);
    CellsOf(unit, before);
    file := rf.unit;
  }

  lemma CellsOf(unit: seq<int>, before: seq<int>)
    requires before <= unit && |before| < |unit|
    ensures unit == before + [unit[|before|]] + unit[|before| + 1..]
    ensures forall header :: unit[|before| := header] == before + [header] + unit[|before| + 1..]
  {
  }

  /** Reads values of the given shapes from the file whose header is the cell at `start`. */
  method LoadCheckpoint(v: Variant, file: seq<int>, start: nat, shapes: seq<Shape>, granted: seq<bool>)
    returns (last: Reader, outs: seq<Out>)
    requires |granted| == |shapes| && start < |file|
    ensures (last, outs) == UnpackAll(v, Open(file, start), shapes, granted)
    ensures AllFilled(outs)
  {
    var rf := new RegFile();
    var err := rf.OpenRegFile(file, start, true);
    outs := [];
    var k := 0;
    while k < |shapes|
      invariant k <= |shapes| && fresh(rf) && fresh(rf.pointers) && rf.Reading()
      invariant (rf.AsReader(), outs) == UnpackAll(v, Open(file, start), shapes[..k], granted[..k])
    {
      var out := UnpackValue(v, rf, shapes[k], granted[k]);
      outs := outs + [out];
      UnpackedNext(v, Open(file, start), shapes, granted, k);
      k := k + 1;
    }
    assert shapes[..k] == shapes && granted[..k] == granted;
    RunFilled(v, Open(file, start), shapes, granted);
    last := Reader(rf.unit, rf.pos, rf.numData, rf.pointers[..], rf.heap, rf.status);
  }

  lemma LoadedIsReadBack(v: Variant, before: seq<int>, capacity: nat, items: seq<Item>, file: seq<int>)
    requires file == CheckpointFile(before, Written(capacity, items))
    ensures UnpackAll(v, Open(file, |before|), Shapes(items), Granted(|items|)) ==
            ReadBack(v, before, capacity, items, |items|)
  {
    assert items[..|items|] == items;
  }

  /** Every value came back, those under the condition on their view excepted, and the file is used up. */
  ghost predicate AllBack(v: Variant, items: seq<Item>, size: nat, last: Reader, outs: seq<Out>) {
    && |outs| == |items|
    && last.status == Running && last.pos == size
    && forall k :: 0 <= k < |items| ==> (Matches(outs[k], last.heap, items[k]) <==> ComesBack(v, items, k))
  }

  lemma ComesAllBack(v: Variant, before: seq<int>, capacity: nat, items: seq<Item>)
    requires AllValid(items) && Written(capacity, items).status == Running
    requires v.storesSlot || (v == EMITTED && NoRepeats(items))
    ensures var (last, outs) := ReadBack(v, before, capacity, items, |items|);
      AllBack(v, items, |CheckpointFile(before, Written(capacity, items))|, last, outs)
  {
    if v.storesSlot {
      CheckpointRestored(v, before, capacity, items);
    } else {
      EmittedRestoresWithoutRepeats(before, capacity, items);
    }
  }

  /** Saved and loaded again: when the save ended without an error, loading with stored slots, or with the
      emitted text if no address was packed twice, uses up the file and restores each value exactly under
      the condition on its view. */
  method SaveAndLoad(v: Variant, before: seq<int>, items: seq<Item>, granted: seq<bool>)
    returns (file: seq<int>, last: Reader, outs: seq<Out>, err: bool)
    requires |granted| == |items| && forall item <- items :: HasFilled(item)
    ensures err <==> PackAll(NewWriter(FRESH_TABLE_SIZE), items, granted).status != Running
    ensures !err && (v.storesSlot || (v == EMITTED && NoRepeats(items))) ==> AllBack(v, items, |file|, last, outs)
  {
    file, err := SaveCheckpoint(before, items, granted);
    last, outs := LoadCheckpoint(v, file, |before|, Shapes(items), Granted(|items|));
    if !err {
      FilledItems(items);
      ErrorFreeRun(FRESH_TABLE_SIZE, items, granted);
      LoadedIsReadBack(v, before, FRESH_TABLE_SIZE, items, file);
      if v.storesSlot || (v == EMITTED && NoRepeats(items)) {
        ComesAllBack(v, before, FRESH_TABLE_SIZE, items);
      }
    }
  }
}

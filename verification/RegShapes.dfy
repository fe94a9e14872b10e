/**
 How many cells an array takes: one for each index vector between its bounds. Every array that is
 read has that many elements, and arrays that have them come back.
 */
module RegShapes {
  import opened RegStream
  import opened RegRoundTrip

  // ---------- index vectors ----------

  /** An index vector of an array declared LB:UB in each dimension. */
  ghost predicate IsIndex(i: seq<int>, lb: seq<int>, ub: seq<int>) {
    |i| == |lb| == |ub| && forall d :: 0 <= d < |i| ==> lb[d] <= i[d] <= ub[d]
  }

  ghost predicate AreIndices(box: set<seq<int>>, lb: seq<int>, ub: seq<int>) {
    forall i :: i in box <==> IsIndex(i, lb, ub)
  }

  /** The vectors that have x in front. */
  ghost function Slice(x: int, tails: set<seq<int>>): set<seq<int>> {
    set t | t in tails :: [x] + t
  }

  lemma {:induction false} SliceSize(x: int, tails: set<seq<int>>)
    ensures |Slice(x, tails)| == |tails|
  {
    if tails != {} {
      var t :| t in tails;
      var rest := tails - {t};
      SliceSize(x, rest);
      forall u | u in rest ensures [x] + u != [x] + t {
        assert ([x] + u)[1..] == u && ([x] + t)[1..] == t;
      }
      assert Slice(x, tails) == Slice(x, rest) + {[x] + t};
    }
  }

  /** The vectors whose first index lies in lo:hi. */
  ghost function Slices(lo: int, hi: int, tails: set<seq<int>>): set<seq<int>>
    decreases hi - lo
  {
    if lo > hi then {} else Slice(lo, tails) + Slices(lo + 1, hi, tails)
  }

  lemma {:induction false} SlicesExact(lo: int, hi: int, tails: set<seq<int>>)
    ensures forall i :: i in Slices(lo, hi, tails) <==> i != [] && lo <= i[0] <= hi && i[1..] in tails
    decreases hi - lo
  {
    if lo <= hi {
      SlicesExact(lo + 1, hi, tails);
      forall i ensures i in Slice(lo, tails) <==> i != [] && i[0] == lo && i[1..] in tails {
        if i != [] && i[0] == lo && i[1..] in tails {
          assert i == [lo] + i[1..];
        }
      }
    }
  }

  lemma {:induction false} SlicesSize(lo: int, hi: int, tails: set<seq<int>>)
    ensures |Slices(lo, hi, tails)| == (if lo <= hi then hi - lo + 1 else 0) * |tails|
    decreases hi - lo
  {
    if lo <= hi {
      SlicesSize(lo + 1, hi, tails);
      SliceSize(lo, tails);
      SlicesApart(lo, hi, tails);
      SizeOfBoth(Slice(lo, tails), Slices(lo + 1, hi, tails));
      OneMore(hi - lo, |tails|);
    }
  }

  lemma SlicesApart(lo: int, hi: int, tails: set<seq<int>>)
    ensures Slice(lo, tails) !! Slices(lo + 1, hi, tails)
  {
    SlicesExact(lo + 1, hi, tails);
  }

  lemma SizeOfBoth<T>(a: set<T>, b: set<T>)
    requires a !! b
    ensures |a + b| == |a| + |b|
  {
  }

  lemma OneMore(n: nat, size: nat)
    ensures size + n * size == (n + 1) * size
  {
  }

  /** There are exactly as many index vectors as the array has elements, for every rank. */
  lemma {:induction false} ExtentCounts(lb: seq<int>, ub: seq<int>) returns (box: set<seq<int>>)
    requires |lb| == |ub|
    ensures AreIndices(box, lb, ub) && |box| == Extent(lb, ub)
  {
    if lb == [] {
      box := {[]};
      return;
    }
    var tails := ExtentCounts(lb[1..], ub[1..]);
    box := Slices(lb[0], ub[0], tails);
    SlicesSize(lb[0], ub[0], tails);
    SlicesAreIndices(lb, ub, tails);
  }

  lemma SlicesAreIndices(lb: seq<int>, ub: seq<int>, tails: set<seq<int>>)
    requires |lb| == |ub| && lb != [] && AreIndices(tails, lb[1..], ub[1..])
    ensures AreIndices(Slices(lb[0], ub[0], tails), lb, ub)
  {
    SlicesExact(lb[0], ub[0], tails);
    forall i ensures i in Slices(lb[0], ub[0], tails) <==> IsIndex(i, lb, ub) {
      FirstIndex(i, lb, ub);
    }
  }

  lemma FirstIndex(i: seq<int>, lb: seq<int>, ub: seq<int>)
    requires |lb| == |ub| && lb != []
    ensures IsIndex(i, lb, ub) <==> i != [] && lb[0] <= i[0] <= ub[0] && IsIndex(i[1..], lb[1..], ub[1..])
  {
    if i != [] && lb[0] <= i[0] <= ub[0] && IsIndex(i[1..], lb[1..], ub[1..]) {
      forall d | 0 <= d < |i| ensures lb[d] <= i[d] <= ub[d] {
        if d > 0 {
          assert i[1..][d - 1] == i[d] && lb[1..][d - 1] == lb[d] && ub[1..][d - 1] == ub[d];
        }
      }
    }
  }

  // ---------- arrays with one element per index ----------

  /** The block holds one element for each index vector. */
  ghost predicate IsFilled(b: Block) {
    |b.lb| == |b.ub| && forall box :: AreIndices(box, b.lb, b.ub) ==> |b.data| == |box|
  }

  /** These are the blocks the round trips are about. */
  lemma FilledExactly(b: Block)
    ensures IsFilled(b) <==> b.Valid()
  {
    if |b.lb| == |b.ub| {
      var indices := ExtentCounts(b.lb, b.ub);
      forall box | AreIndices(box, b.lb, b.ub) ensures box == indices {
      }
    }
  }

  /** The arrays in a call have one element for each index vector. */
  ghost predicate HasFilled(item: Item) {
    match item
    case Plain(_) => true
    case Allocatable(value) => value.Some? ==> IsFilled(value.value)
    case Pointer(a, b) => a != NULL ==> IsFilled(b)
  }

  lemma FilledItems(items: seq<Item>)
    ensures AllValid(items) <==> forall item <- items :: HasFilled(item)
  {
    forall item | item in items ensures HasFilled(item) <==> item.Valid() {
      match item
      case Allocatable(Some(b)) => FilledExactly(b);
      case Pointer(_, b) => FilledExactly(b);
      case _ =>
    }
  }

  // ---------- what is read ----------

  /** What a call returns holds one element for each index between the bounds that were read; a new
      target is the last block allocated. */
  ghost predicate ReturnsFilled(heap: seq<seq<int>>, res: (Reader, Out)) {
    match res.1
    case AllocOut(Some(b)) => IsFilled(b)
    case PtrOut(a, lb, ub) =>
      |res.0.heap| > |heap| ==> a == |res.0.heap| && IsFilled(Block(lb, ub, res.0.heap[a - 1]))
    case _ => true
  }

  lemma UnpackCount(r: Reader, count: nat)
    ensures Unpack(r, count).0.status == Running ==> |Unpack(r, count).1| == count
    ensures Unpack(r, count).0.heap == r.heap
  {
  }

  lemma AllocFilled(r: Reader, rank: nat, granted: bool)
    ensures ReturnsFilled(r.heap, UnpackAlloc(r, rank, granted))
  {
    if r.status == Running {
      var r1 := Unpack(r, 1).0;
      var (r2, lb, ub) := UnpackBounds(r1, rank);
      if r1.status == Running && r2.status == Running {
        var (r3, data) := Unpack(r2, Extent(lb, ub));
        UnpackCount(r2, Extent(lb, ub));
        FilledExactly(Block(lb, ub, data));
      }
    }
  }

  lemma TargetFilled(v: Variant, r: Reader, lb: seq<int>, ub: seq<int>, idx: int, granted: bool)
    requires |lb| == |ub| && 1 <= idx <= |r.table|
    ensures ReturnsFilled(r.heap, UnpackTarget(v, r, lb, ub, idx, granted))
  {
    var (r', data) := Unpack(r, Extent(lb, ub));
    UnpackCount(r, Extent(lb, ub));
    FilledExactly(Block(lb, ub, data));
  }

  lemma BoundsKeepHeap(r: Reader, rank: nat)
    ensures UnpackBounds(r, rank).0.heap == r.heap
  {
    UnpackCount(r, rank);
    UnpackCount(Unpack(r, rank).0, rank);
  }

  lemma LookupKeepsHeap(r: Reader)
    ensures UnpackPointer(r).0.heap == r.heap
  {
    UnpackCount(r, 1);
  }

  lemma PtrFilled(v: Variant, r: Reader, rank: nat, granted: bool)
    ensures ReturnsFilled(r.heap, UnpackPtr(v, r, rank, granted))
  {
    if r.status == Running {
      var r1 := Unpack(r, 1).0;
      UnpackCount(r, 1);
      BoundsKeepHeap(r1, rank);
      var (r2, lb, ub) := UnpackBounds(r1, rank);
      LookupKeepsHeap(r2);
      var (r3, a, idx) := UnpackPointer(r2);
      if r1.status == r2.status == r3.status == Running {
        TargetFilled(v, r3, lb, ub, idx, granted);
      }
    }
  }

  /** On any file, every array and every new target that is read has one element for each index between
      its bounds. */
  lemma ReadFilled(v: Variant, r: Reader, shape: Shape, granted: bool)
    ensures ReturnsFilled(r.heap, UnpackItem(v, r, shape, granted))
  {
    match shape
    case PlainShape(_) =>
    case AllocShape(rank) => AllocFilled(r, rank, granted);
    case PtrShape(rank) => PtrFilled(v, r, rank, granted);
  }

  ghost predicate AllocatedFilled(out: Out) {
    out.AllocOut? && out.value.Some? ==> IsFilled(out.value.value)
  }

  ghost predicate AllFilled(outs: seq<Out>) {
    forall k :: 0 <= k < |outs| ==> AllocatedFilled(outs[k])
  }

  /** So has every array returned by a run of calls. */
  lemma {:induction false} RunFilled(v: Variant, r: Reader, shapes: seq<Shape>, granted: seq<bool>)
    requires |granted| == |shapes|
    ensures AllFilled(UnpackAll(v, r, shapes, granted).1)
  {
    if shapes != [] {
      var n := |shapes| - 1;
      RunFilled(v, r, shapes[..n], granted[..n]);
      var (r1, outs) := UnpackAll(v, r, shapes[..n], granted[..n]);
      ItemFilled(v, r1, shapes[n], granted[n]);
      OneMoreFilled(outs, UnpackItem(v, r1, shapes[n], granted[n]).1);
    }
  }

  lemma OneMoreFilled(outs: seq<Out>, out: Out)
    requires AllFilled(outs) && AllocatedFilled(out)
    ensures AllFilled(outs + [out])
  {
    forall k | 0 <= k < |outs + [out]| ensures AllocatedFilled((outs + [out])[k]) {
      if k < |outs| {
        assert AllocatedFilled(outs[k]);
      }
    }
  }

  lemma ItemFilled(v: Variant, r: Reader, shape: Shape, granted: bool)
    ensures AllocatedFilled(UnpackItem(v, r, shape, granted).1)
  {
    ReadFilled(v, r, shape, granted);
  }
}

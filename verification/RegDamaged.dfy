/**
 Reading any file at all: what is accepted is exactly a list of records numbered from 1, the first
 wrong number stops the reading, and nothing happens afterwards. A file that was never closed
 yields no pointer.
 */
module RegDamaged {
  import opened RegStream
  import opened RegWriting
  import opened RegRoundTrip

  // ---------- runs of RegUnpack ----------

  /** A run of RegUnpack calls, each asking for a number of cells. */
  function UnpackRun(r: Reader, counts: seq<nat>): (res: (Reader, seq<seq<int>>))
    ensures |res.1| == |counts|
  {
    if counts == [] then (r, []) else
    var n := |counts| - 1;
    var (r1, records) := UnpackRun(r, counts[..n]);
    var (r2, record) := Unpack(r1, counts[n]);
    (r2, records + [record])
  }

  ghost predicate Sized(records: seq<seq<int>>, counts: seq<nat>) {
    |records| == |counts| && forall i :: 0 <= i < |counts| ==> |records[i]| == counts[i]
  }

  /** The reader started at r0 has accepted exactly these numbered records. */
  ghost predicate Accepted(r0: Reader, r: Reader, records: seq<seq<int>>) {
    && r.status == Running
    && r == r0.(pos := r.pos, numData := |records|)
    && r0.pos <= r.pos <= |r0.file|
    && r0.file[r0.pos..r.pos] == Framed(records)
  }

  lemma {:induction false} AcceptNext(r0: Reader, r: Reader, records: seq<seq<int>>, count: nat)
    requires Accepted(r0, r, records)
    ensures var (r', record) := Unpack(r, count);
      && (r'.status == Running ==> |record| == count && Accepted(r0, r', records + [record]))
      && (r'.status == Failed ==>
            r.pos < |r0.file| && r0.file[r.pos] != r'.numData == |records| + 1 && r'.pos == r.pos + 1)
  {
    var (r', record) := Unpack(r, count);
    if r'.status == Running {
      FramedConcat(records, record);
      assert r0.file[r0.pos..r'.pos] == r0.file[r0.pos..r.pos] + [r0.file[r.pos]] + r0.file[r.pos + 1..r'.pos];
    }
  }

  /** The run accepts records numbered 1, 2, 3, ... of the sizes asked for, as long as they last. It
      is rejected at the first record that carries another number, and stopped where the file ends. */
  lemma {:induction false} AcceptedNumbers(r: Reader, counts: seq<nat>) returns (good: Reader, records: seq<seq<int>>)
    requires r.status == Running && r.numData == 0 && r.pos <= |r.file|
    ensures Accepted(r, good, records) && |records| <= |counts| && Sized(records, counts[..|records|])
    ensures Outcome(good, records, counts, UnpackRun(r, counts))
  {
    if counts == [] {
      return r, [];
    }
    var n := |counts| - 1;
    var front := counts[..n];
    good, records := AcceptedNumbers(r, front);
    assert front[..|records|] == counts[..|records|];
    if |records| == n {
      var (r', record) := Unpack(good, counts[n]);
      AcceptNext(r, good, records, counts[n]);
      if r'.status == Running {
        assert Sized(records + [record], counts);
        assert counts[..n + 1] == counts;
        return r', records + [record];
      }
    }
  }

  /** How a run ended whose last accepted state is `good`. */
  ghost predicate Outcome(good: Reader, records: seq<seq<int>>, counts: seq<nat>, res: (Reader, seq<seq<int>>))
    requires |records| <= |counts|
  {
    var m := |records|;
    match res.0.status
    case Running => m == |counts| && res == (good, records)
    case Failed =>
      && m < |counts| && good.pos < |good.file| && good.file[good.pos] != m + 1
      && res.0 == good.(numData := m + 1, pos := good.pos + 1, status := Failed)
    case Halted =>
      && m < |counts|
      && (if good.pos >= |good.file| then res.0 == good.(numData := m + 1, status := Halted)
          else
            && good.file[good.pos] == m + 1 && good.pos + 1 + counts[m] > |good.file|
            && res.0 == good.(numData := m + 1, pos := good.pos + 1, status := Halted))
  }

  /** A record behind its number at this place of the file. */
  ghost predicate Lies(file: seq<int>, at: nat, number: nat, record: seq<int>) {
    && at + 1 + |record| <= |file|
    && file[at] == number
    && file[at + 1..at + 1 + |record|] == record
  }

  /** Record i lies at its start, and the next one starts behind it. */
  ghost predicate Follows(file: seq<int>, records: seq<seq<int>>, starts: seq<nat>, i: nat)
    requires i < |records| && i + 1 < |starts|
  {
    Lies(file, starts[i], i + 1, records[i]) && starts[i + 1] == starts[i] + 1 + |records[i]|
  }

  /** Where record k of a framing starts. */
  function StartOf(records: seq<seq<int>>, k: nat): nat
    requires k <= |records|
  {
    |Framed(records[..k])|
  }

  lemma {:induction false} FramedLies(file: seq<int>, pos: nat, records: seq<seq<int>>, k: nat)
    requires k < |records| && pos <= |file| && Framed(records) <= file[pos..]
    ensures Lies(file, pos + StartOf(records, k), k + 1, records[k])
    ensures StartOf(records, k + 1) == StartOf(records, k) + 1 + |records[k]|
  {
    var n := |records| - 1;
    var front := records[..n];
    if k == n {
      assert records[..n + 1] == records;
      PartLies(file, pos, Framed(front), n + 1, records[n]);
    } else {
      assert front[..k] == records[..k] && front[..k + 1] == records[..k + 1];
      FramedLies(file, pos, front, k);
    }
  }

  lemma Starts(file: seq<int>, pos: nat, records: seq<seq<int>>) returns (starts: seq<nat>)
    requires pos <= |file| && Framed(records) <= file[pos..]
    ensures |starts| == |records| + 1 && starts[0] == pos && starts[|records|] == pos + |Framed(records)|
    ensures forall i :: 0 <= i < |records| ==> Follows(file, records, starts, i)
  {
    var n := |records|;
    starts := seq(n + 1, i requires 0 <= i <= n => pos + StartOf(records, i));
    forall i | 0 <= i < n ensures Follows(file, records, starts, i) {
      FramedLies(file, pos, records, i);
    }
    assert records[..0] == [] && records[..n] == records;
  }

  lemma PartLies(file: seq<int>, pos: nat, front: seq<int>, number: nat, record: seq<int>)
    requires pos <= |file| && front + [number] + record <= file[pos..]
    ensures Lies(file, pos + |front|, number, record)
  {
    var rest, k := file[pos..], |front|;
    var all := front + [number] + record;
    assert all[..k] == front && all[k] == number && all[k + 1..] == record;
    assert rest[..|all|][k + 1..] == rest[k + 1..|all|] == file[pos + k + 1..pos + k + 1 + |record|];
  }

  /** Conversely, records numbered 1, 2, 3, ... of the sizes asked for are accepted and returned. */
  lemma {:induction false} NumberedAccepted(r: Reader, records: seq<seq<int>>, counts: seq<nat>)
    requires r.status == Running && r.numData == 0 && r.pos <= |r.file|
    requires Sized(records, counts) && Framed(records) <= r.file[r.pos..]
    ensures UnpackRun(r, counts) == (r.(pos := r.pos + |Framed(records)|, numData := |counts|), records)
  {
    var n := |counts|;
    var starts := Starts(r.file, r.pos, records);
    AcceptedUpTo(r, records, counts, starts, n);
    assert records[..n] == records && counts[..n] == counts;
  }

  lemma {:induction false} AcceptedUpTo(
      r: Reader, records: seq<seq<int>>, counts: seq<nat>, starts: seq<nat>, k: nat)
    requires r.status == Running && r.numData == 0 && Sized(records, counts)
    requires k <= |counts| && |starts| == |counts| + 1 && starts[0] == r.pos
    requires forall i :: 0 <= i < |counts| ==> Follows(r.file, records, starts, i)
    ensures UnpackRun(r, counts[..k]) == (r.(pos := starts[k], numData := k), records[..k])
  {
    if k == 0 {
      assert counts[..0] == [] && records[..0] == [];
    } else {
      var n := k - 1;
      AcceptedUpTo(r, records, counts, starts, n);
      assert Follows(r.file, records, starts, n) && |records[n]| == counts[n];
      LiesRead(r, starts[n], n, records[n]);
      var r1, r2 := r.(pos := starts[n], numData := n), r.(pos := starts[k], numData := k);
      RunStep(r, counts, n, r1, records[..n], r2, records[n]);
      assert records[..k] == records[..n] + [records[n]];
    }
  }

  lemma LiesRead(r: Reader, at: nat, n: nat, record: seq<int>)
    requires r.status == Running && Lies(r.file, at, n + 1, record)
    ensures Unpack(r.(pos := at, numData := n), |record|) == (r.(pos := at + 1 + |record|, numData := n + 1), record)
  {
  }

  lemma RunStep(
      r: Reader, counts: seq<nat>, k: nat, r1: Reader, records: seq<seq<int>>, r2: Reader, record: seq<int>)
    requires k < |counts| && UnpackRun(r, counts[..k]) == (r1, records) && Unpack(r1, counts[k]) == (r2, record)
    ensures UnpackRun(r, counts[..k + 1]) == (r2, records + [record])
  {
    assert counts[..k + 1][..k] == counts[..k];
  }

  // ---------- the read routines as runs ----------

  /** The state apart from the pointer table and the targets. */
  ghost predicate SamePlace(r: Reader, q: Reader) {
    r.file == q.file && r.pos == q.pos && r.numData == q.numData
  }

  /** Why a routine stops although all its records were read: the allocation of a target was
      refused, or the index record read last names no slot of the table. */
  ghost predicate StopsBetween(r: Reader, refused: bool) {
    || (r.status == Failed && refused)
    || (r.status == Halted && 1 <= r.pos <= |r.file| && !(1 <= r.file[r.pos - 1] <= |r.table|))
  }

  /** A routine that ended in state r did what a run of RegUnpack calls ending in state q does. */
  ghost predicate Ran(r: Reader, q: Reader, refused: bool) {
    SamePlace(r, q) && (r.status == q.status || (q.status == Running && StopsBetween(r, refused)))
  }

  lemma {:induction false} RunConcat(r: Reader, a: seq<nat>, b: seq<nat>)
    ensures UnpackRun(r, a + b).0 == UnpackRun(UnpackRun(r, a).0, b).0
  {
    if b == [] {
      assert a + b == a;
    } else {
      var n := |b| - 1;
      RunConcat(r, a, b[..n]);
      assert (a + b)[..|a + b| - 1] == a + b[..n];
    }
  }

  /** A run looks neither at the pointer table nor at the targets. */
  lemma {:induction false} RunElsewhere(r: Reader, q: Reader, counts: seq<nat>)
    requires SamePlace(r, q) && r.status == q.status
    ensures var r', q' := UnpackRun(r, counts).0, UnpackRun(q, counts).0;
      SamePlace(r', q') && r'.status == q'.status
  {
    if counts != [] {
      var n := |counts| - 1;
      RunElsewhere(r, q, counts[..n]);
      UnpackElsewhere(UnpackRun(r, counts[..n]).0, UnpackRun(q, counts[..n]).0, counts[n]);
    }
  }

  lemma UnpackElsewhere(r: Reader, q: Reader, count: nat)
    requires SamePlace(r, q) && r.status == q.status
    ensures var r', q' := Unpack(r, count).0, Unpack(q, count).0;
      SamePlace(r', q') && r'.status == q'.status
  {
  }

  lemma OneUnpack(r: Reader, count: nat)
    ensures UnpackRun(r, [count]).0 == Unpack(r, count).0
  {
    assert [count][..0] == [];
    assert UnpackRun(r, []) == (r, []);
  }

  /** One more RegUnpack behind a run. */
  lemma RunNext(r: Reader, counts: seq<nat>, r1: Reader, count: nat)
    requires UnpackRun(r, counts).0 == r1
    ensures UnpackRun(r, counts + [count]).0 == Unpack(r1, count).0
  {
    RunConcat(r, counts, [count]);
    OneUnpack(r1, count);
  }

  lemma BoundsAreRun(r: Reader, counts: seq<nat>, r1: Reader, rank: nat) returns (counts': seq<nat>)
    requires UnpackRun(r, counts).0 == r1
    ensures UnpackRun(r, counts').0 == UnpackBounds(r1, rank).0
  {
    if rank == 0 {
      return counts;
    }
    RunNext(r, counts, r1, rank);
    RunNext(r, counts + [rank], Unpack(r1, rank).0, rank);
    return counts + [rank] + [rank];
  }

  lemma AllocIsRun(r: Reader, rank: nat, granted: bool) returns (counts: seq<nat>)
    ensures Ran(UnpackAlloc(r, rank, granted).0, UnpackRun(r, counts).0, !granted)
  {
    if r.status != Running {
      return [];
    }
    OneUnpack(r, 1);
    counts := [1];
    var (r1, flag) := Unpack(r, 1);
    if r1.status != Running || flag == [0] {
      return;
    }
    counts := BoundsAreRun(r, counts, r1, rank);
    var (r2, lb, ub) := UnpackBounds(r1, rank);
    if r2.status != Running || !granted {
      return;
    }
    RunNext(r, counts, r2, Extent(lb, ub));
    counts := counts + [Extent(lb, ub)];
  }

  /** Flag, bounds and index. */
  lemma OpeningIsRun(r: Reader, rank: nat) returns (counts: seq<nat>)
    requires r.status == Running && Unpack(r, 1).0.status == Running
    ensures var r2 := UnpackBounds(Unpack(r, 1).0, rank).0;
      UnpackRun(r, counts).0 == if r2.status == Running then Unpack(r2, 1).0 else r2
  {
    OneUnpack(r, 1);
    counts := BoundsAreRun(r, [1], Unpack(r, 1).0, rank);
    var r2 := UnpackBounds(Unpack(r, 1).0, rank).0;
    if r2.status == Running {
      RunNext(r, counts, r2, 1);
      counts := counts + [1];
    }
  }

  lemma LookupStops(r: Reader)
    requires r.status == Running
    ensures Ran(UnpackPointer(r).0, Unpack(r, 1).0, false)
    ensures UnpackPointer(r).0.status == Running ==> UnpackPointer(r).0 == Unpack(r, 1).0
  {
  }

  lemma PtrIsRun(v: Variant, r: Reader, rank: nat, granted: bool) returns (counts: seq<nat>)
    ensures Ran(UnpackPtr(v, r, rank, granted).0, UnpackRun(r, counts).0, !granted)
  {
    if r.status != Running {
      return [];
    }
    var (r1, flag) := Unpack(r, 1);
    if r1.status != Running || flag == [0] {
      OneUnpack(r, 1);
      return [1];
    }
    counts := OpeningIsRun(r, rank);
    var (r2, lb, ub) := UnpackBounds(r1, rank);
    if r2.status != Running {
      return;
    }
    LookupStops(r2);
    var (r3, a, idx) := UnpackPointer(r2);
    if r3.status != Running || a != NULL || !granted {
      return;
    }
    RunNext(r, counts, r3, Extent(lb, ub));
    counts := counts + [Extent(lb, ub)];
  }

  /** Every call is such a run, up to a stop at the slot lookup or a refused allocation; the sizes
      come from the caller and from the records read before. */
  lemma ItemIsRun(v: Variant, r: Reader, shape: Shape, granted: bool) returns (counts: seq<nat>)
    ensures Ran(UnpackItem(v, r, shape, granted).0, UnpackRun(r, counts).0, !granted)
  {
    match shape
    case PlainShape(n) =>
      OneUnpack(r, n);
      counts := [n];
    case AllocShape(rank) => counts := AllocIsRun(r, rank, granted);
    case PtrShape(rank) => counts := PtrIsRun(v, r, rank, granted);
  }

  // ---------- what reading leaves alone ----------

  ghost predicate Untouched(r: Reader, r': Reader) {
    r'.file == r.file && r'.table == r.table && r'.heap == r.heap
  }

  lemma UnpackLeaves(r: Reader, count: nat)
    ensures Untouched(r, Unpack(r, count).0)
  {
  }

  lemma BoundsLeave(r: Reader, rank: nat)
    ensures Untouched(r, UnpackBounds(r, rank).0)
  {
    UnpackLeaves(r, rank);
    UnpackLeaves(Unpack(r, rank).0, rank);
  }

  lemma AllocLeaves(r: Reader, rank: nat, granted: bool)
    ensures Untouched(r, UnpackAlloc(r, rank, granted).0) && !UnpackAlloc(r, rank, granted).1.PtrOut?
  {
    var (r1, flag) := Unpack(r, 1);
    UnpackLeaves(r, 1);
    BoundsLeave(r1, rank);
    var (r2, lb, ub) := UnpackBounds(r1, rank);
    if r2.status == Running && r1.status == Running {
      UnpackLeaves(r2, Extent(lb, ub));
    }
  }

  lemma PointerLeaves(r: Reader)
    ensures Untouched(r, UnpackPointer(r).0)
  {
    UnpackLeaves(r, 1);
  }

  lemma TargetKeepsSize(v: Variant, r: Reader, lb: seq<int>, ub: seq<int>, idx: int, granted: bool)
    requires |lb| == |ub| && 1 <= idx <= |r.table|
    ensures |UnpackTarget(v, r, lb, ub, idx, granted).0.table| == |r.table|
  {
    UnpackLeaves(r, Extent(lb, ub));
  }

  /** A pointer call keeps the size of the table, and without a table it gets no further than the lookup. */
  lemma PtrKeepsSize(v: Variant, r: Reader, rank: nat, granted: bool)
    ensures var (r', out) := UnpackPtr(v, r, rank, granted);
      && |r'.table| == |r.table|
      && (r.table == [] ==> r'.heap == r.heap && (out.PtrOut? ==> out.addr == NULL))
  {
    if r.status == Running {
      var r1 := Unpack(r, 1).0;
      UnpackLeaves(r, 1);
      BoundsLeave(r1, rank);
      var (r2, lb, ub) := UnpackBounds(r1, rank);
      PointerLeaves(r2);
      var (r3, a, idx) := UnpackPointer(r2);
      if r1.status == r2.status == r3.status == Running {
        TargetKeepsSize(v, r3, lb, ub, idx, granted);
      }
    }
  }

  lemma ItemKeepsSize(v: Variant, r: Reader, shape: Shape, granted: bool)
    ensures var (r', out) := UnpackItem(v, r, shape, granted);
      && |r'.table| == |r.table|
      && (r.table == [] ==> r'.heap == r.heap && (out.PtrOut? ==> out.addr == NULL))
  {
    match shape
    case PlainShape(n) => UnpackLeaves(r, n);
    case AllocShape(rank) => AllocLeaves(r, rank, granted);
    case PtrShape(rank) => PtrKeepsSize(v, r, rank, granted);
  }

  lemma {:induction false} StoppedReader(v: Variant, r: Reader, shape: Shape, granted: bool)
    requires r.status != Running
    ensures UnpackItem(v, r, shape, granted) == (r, NoValue)
  {
  }

  lemma {:induction false} StoppedNext(v: Variant, r: Reader, shapes: seq<Shape>, granted: seq<bool>, n: nat)
    requires |granted| == |shapes| == n + 1
    requires UnpackAll(v, r, shapes[..n], granted[..n]).0.status != Running
    ensures var (r1, outs) := UnpackAll(v, r, shapes[..n], granted[..n]);
      UnpackAll(v, r, shapes, granted) == (r1, outs + [NoValue])
  {
    StoppedReader(v, UnpackAll(v, r, shapes[..n], granted[..n]).0, shapes[n], granted[n]);
  }

  lemma {:induction false} ReadErrorIsFinal(v: Variant, r: Reader, shapes: seq<Shape>, granted: seq<bool>, k: nat)
    requires |granted| == |shapes| && k <= |shapes|
    requires UnpackAll(v, r, shapes[..k], granted[..k]).0.status != Running
    ensures UnpackAll(v, r, shapes, granted).0 == UnpackAll(v, r, shapes[..k], granted[..k]).0
    ensures forall i :: k <= i < |shapes| ==> UnpackAll(v, r, shapes, granted).1[i] == NoValue
  {
    if k == |shapes| {
      assert shapes[..k] == shapes && granted[..k] == granted;
    } else {
      var n := |shapes| - 1;
      var shapes1, granted1 := shapes[..n], granted[..n];
      assert shapes1[..k] == shapes[..k] && granted1[..k] == granted[..k];
      ReadErrorIsFinal(v, r, shapes1, granted1, k);
      StoppedNext(v, r, shapes, granted, n);
    }
  }

  /** So is every run of calls. */
  lemma {:induction false} AllIsRun(v: Variant, r: Reader, shapes: seq<Shape>, granted: seq<bool>)
    returns (counts: seq<nat>)
    requires |granted| == |shapes|
    ensures var r' := UnpackAll(v, r, shapes, granted).0;
      Ran(r', UnpackRun(r, counts).0, false in granted) && |r'.table| == |r.table|
  {
    if shapes == [] {
      return [];
    }
    var n := |shapes| - 1;
    counts := AllIsRun(v, r, shapes[..n], granted[..n]);
    var r1 := UnpackAll(v, r, shapes[..n], granted[..n]).0;
    assert false in granted[..n] ==> false in granted;
    if r1.status != Running {
      StoppedReader(v, r1, shapes[n], granted[n]);
    } else {
      var more := ItemIsRun(v, r1, shapes[n], granted[n]);
      ItemKeepsSize(v, r1, shapes[n], granted[n]);
      RunElsewhere(r1, UnpackRun(r, counts).0, more);
      RunConcat(r, counts, more);
      counts := counts + more;
    }
  }

  /** Reading any file with any calls: the records read are numbered 1, 2, 3, ... as long as the
      reading lasts. It is rejected at the first record that carries another number; apart from that
      only a refused allocation, the end of the file or an index outside the table ends it. */
  lemma RejectedAtFirstWrongNumber(v: Variant, r: Reader, shapes: seq<Shape>, granted: seq<bool>)
    returns (records: seq<seq<int>>)
    requires |granted| == |shapes| && r.status == Running && r.numData == 0 && r.pos <= |r.file|
    ensures var next := r.pos + |Framed(records)|;
      && next <= |r.file| && r.file[r.pos..next] == Framed(records)
      && Ending(UnpackAll(v, r, shapes, granted).0, r.file, next, |records|, false in granted)
  {
    var counts := AllIsRun(v, r, shapes, granted);
    var good;
    good, records := AcceptedNumbers(r, counts);
    AcceptedPlace(r, good, records);
    EndsAsRun(UnpackAll(v, r, shapes, granted).0, UnpackRun(r, counts), false in granted, good, records, counts);
  }

  lemma AcceptedPlace(r: Reader, good: Reader, records: seq<seq<int>>)
    requires Accepted(r, good, records)
    ensures good.file == r.file && good.pos == r.pos + |Framed(records)| <= |r.file| && good.numData == |records|
    ensures r.file[r.pos..r.pos + |Framed(records)|] == Framed(records)
  {
    assert |r.file[r.pos..good.pos]| == |Framed(records)|;
  }

  lemma EndsAsRun(
      r: Reader, res: (Reader, seq<seq<int>>), refused: bool, good: Reader, records: seq<seq<int>>, counts: seq<nat>)
    requires |records| <= |counts| && Outcome(good, records, counts, res) && Ran(r, res.0, refused)
    requires good.status == Running && good.pos <= |good.file| && good.numData == |records|
    ensures Ending(r, good.file, good.pos, |records|, refused)
  {
  }

  /** How a reader ended that found `read` well-numbered records up to cell `next`. */
  ghost predicate Ending(r: Reader, file: seq<int>, next: nat, read: nat, refused: bool)
    requires next <= |file|
  {
    match r.status
    case Running => r.pos == next && r.numData == read
    case Failed =>
      || (r.pos == next + 1 <= |file| && r.numData == read + 1 && file[next] != read + 1)
      || (r.pos == next && r.numData == read && refused)
    case Halted =>
      || next == |file|
      || (file[next] == read + 1 && r.pos == next + 1)
      || (r.pos == next && r.numData == read && 1 <= next && !(1 <= file[next - 1] <= |r.table|))
  }

  // ---------- refused allocations ----------

  lemma AllocRefused(r: Reader, rank: nat)
    ensures var res, bad := UnpackAlloc(r, rank, true), UnpackAlloc(r, rank, false);
      && (bad == res || (bad.0.status == Failed && bad.1 == NoValue && bad.0.heap == r.heap))
      && (res.1.AllocOut? && res.1.value.Some? ==> bad.0.status == Failed && bad.1 == NoValue)
  {
    if r.status == Running {
      var r1 := Unpack(r, 1).0;
      UnpackLeaves(r, 1);
      BoundsLeave(r1, rank);
    }
  }

  lemma PtrRefused(v: Variant, r: Reader, rank: nat)
    ensures var res, bad := UnpackPtr(v, r, rank, true), UnpackPtr(v, r, rank, false);
      && (bad == res || (bad.0.status == Failed && bad.1 == NoValue && bad.0.heap == r.heap))
      && (res.0.heap != r.heap ==> bad.0.status == Failed && bad.1 == NoValue)
  {
    if r.status == Running {
      var r1 := Unpack(r, 1).0;
      UnpackLeaves(r, 1);
      BoundsLeave(r1, rank);
      PointerLeaves(UnpackBounds(r1, rank).0);
    }
  }

  /** A call that would have allocated a value or a target ends in an error and returns nothing when the
      allocation is refused; any other call does not ask for one. */
  lemma {:induction false} RefusedAllocation(v: Variant, r: Reader, shape: Shape)
    ensures var res, bad := UnpackItem(v, r, shape, true), UnpackItem(v, r, shape, false);
      && (bad == res || (bad.0.status == Failed && bad.1 == NoValue && bad.0.heap == r.heap))
      && ((res.1.AllocOut? && res.1.value.Some?) || res.0.heap != r.heap ==>
            bad.0.status == Failed && bad.1 == NoValue)
  {
    match shape
    case PlainShape(n) => UnpackLeaves(r, n);
    case AllocShape(rank) =>
      AllocLeaves(r, rank, true);
      AllocRefused(r, rank);
    case PtrShape(rank) => PtrRefused(v, r, rank);
  }

  // ---------- files that were never closed ----------

  /** A run that ended in an error leaves a file from which no call reads a pointer other than null:
      its header opens an empty table, so the first lookup stops. */
  lemma {:induction false} UnfinishedYieldsNoPointer(
      before: seq<int>, capacity: nat, items: seq<Item>, granted: seq<bool>,
      v: Variant, shapes: seq<Shape>, granted': seq<bool>)
    requires |granted| == |items| && |granted'| == |shapes|
    requires PackAll(NewWriter(capacity), items, granted).status != Running
    ensures var file := CheckpointFile(before, PackAll(NewWriter(capacity), items, granted));
      var (r, outs) := UnpackAll(v, Open(file, |before|), shapes, granted');
      && r.table == [] && r.heap == []
      && forall k :: 0 <= k < |outs| && outs[k].PtrOut? ==> outs[k].addr == NULL
  {
    var file := CheckpointFile(before, PackAll(NewWriter(capacity), items, granted));
    HeaderTellsCompletion(capacity, items, granted);
    assert file[|before|] == -1;
    if shapes != [] {
      var n := |shapes| - 1;
      UnfinishedYieldsNoPointer(before, capacity, items, granted, v, shapes[..n], granted'[..n]);
      var r1 := UnpackAll(v, Open(file, |before|), shapes[..n], granted'[..n]).0;
      ItemKeepsSize(v, r1, shapes[n], granted'[n]);
    }
  }
}

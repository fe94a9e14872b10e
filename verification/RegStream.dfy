/**
 The registry checkpoint stream as two state machines on values: a writer that
 appends numbered records and a reader that consumes them.

 A file is a sequence of cells; each stored scalar (a record number, a flag, a
 bound, a pointer index or one array element) takes one cell, and a cell is an
 uninterpreted integer, so a reader that has lost its place reads whatever cell
 it finds. Addresses are natural numbers and 0 is the null pointer.
 */
module RegStream {
  import opened Wrappers

  type Addr = nat

  const NULL: Addr := 0
  const FRESH_TABLE_SIZE: nat := 128

  /** Running: RF%ErrStat is ErrID_None. Failed: RF%ErrStat holds an error.
      Halted: the program was stopped by the run-time system, by a read past the end
      of the file or an index outside the pointer table. */
  datatype Status = Running | Failed | Halted

  // ---------- values ----------

  function Span(lo: int, hi: int): nat {
    if lo <= hi then hi - lo + 1 else 0
  }

  /** Number of elements of an array with the given bounds; a scalar has no bounds and one element. */
  function Extent(lb: seq<int>, ub: seq<int>): nat
    requires |lb| == |ub|
  {
    if lb == [] then 1 else Span(lb[0], ub[0]) * Extent(lb[1..], ub[1..])
  }

  /** The target of an allocatable or a pointer: bounds per dimension and the elements. */
  datatype Block = Block(lb: seq<int>, ub: seq<int>, data: seq<int>)
  {
    predicate Valid() {
      |lb| == |ub| && |data| == Extent(lb, ub)
    }
  }

  /** One call of RegPack, RegPackAlloc or RegPackPtr with its argument. */
  datatype Item =
    | Plain(data: seq<int>)
    | Allocatable(value: Option<Block>)
    | Pointer(addr: Addr, target: Block)
  {
    predicate Valid() {
      match this
      case Plain(_) => true
      case Allocatable(None) => true
      case Allocatable(Some(b)) => b.Valid()
      case Pointer(a, b) => a != NULL ==> b.Valid()
    }
  }

  // ---------- the writer ----------

  /** `body` is the file after the header cell. `table` is Pointers(1:NumPointers), `capacity`
      the allocated size of Pointers and `copied` the slots moved by all growth steps so far. */
  datatype Writer = Writer(
    header: int, body: seq<int>, numData: nat, table: seq<Addr>, capacity: nat, copied: nat, status: Status)

  function NewWriter(capacity: nat): Writer {
    Writer(-1, [], 0, [], capacity, 0, Running)
  }

  function Pack(w: Writer, data: seq<int>): Writer {
    if w.status != Running then w else
    w.(body := w.body + [w.numData + 1] + data, numData := w.numData + 1)
  }

  function PackBounds(w: Writer, b: Block): Writer {
    if b.lb == [] then w else Pack(Pack(w, b.lb), b.ub)
  }

  /** 1-based position of the first occurrence. */
  function IndexOf(table: seq<Addr>, a: Addr): (i: nat)
    requires a in table
    ensures 1 <= i <= |table| && table[i - 1] == a && a !in table[..i - 1]
  {
    if table[0] == a then 1 else 1 + IndexOf(table[1..], a)
  }

  /** int(1.5*n), which truncates. */
  function GrownSize(n: nat): nat {
    3 * n / 2
  }

  /** The table after making room for one more pointer. `granted` is the status of the
      allocation; a failed one leaves the table deallocated and sets the error. */
  function Grow(w: Writer, granted: bool): Writer {
    if |w.table| != w.capacity then w
    else if !granted then w.(table := [], capacity := 0, status := Failed)
    else w.(capacity := GrownSize(w.capacity), copied := w.copied + w.capacity)
  }

  function Register(w: Writer, a: Addr): Writer {
    if w.status != Running then w
    else if |w.table| < w.capacity then w.(table := w.table + [a])
    else w.(status := Halted)
  }

  function PackPointer(w: Writer, a: Addr, granted: bool): Writer {
    if w.status != Running then w
    else if a in w.table then Pack(w, [IndexOf(w.table, a)])
    else
      var w' := Register(Grow(w, granted), a);
      Pack(w', [|w'.table|])
  }

  function PackItem(w: Writer, item: Item, granted: bool): Writer {
    match item
    case Plain(d) => Pack(w, d)
    case Allocatable(None) => Pack(w, [0])
    case Allocatable(Some(b)) => Pack(PackBounds(Pack(w, [1]), b), b.data)
    case Pointer(a, b) =>
      if a == NULL then Pack(w, [0])
      else
        var w' := PackPointer(PackBounds(Pack(w, [1]), b), a, granted);
        if a in w.table then w' else Pack(w', b.data)
  }

  /** A run: one allocation status per call. */
  function PackAll(w: Writer, items: seq<Item>, granted: seq<bool>): Writer
    requires |granted| == |items|
  {
    if items == [] then w
    else PackItem(PackAll(w, items[..|items| - 1], granted[..|items| - 1]),
                  items[|items| - 1], granted[|items| - 1])
  }

  function Close(w: Writer): Writer {
    if w.status != Running then w else w.(header := |w.table|)
  }

  // ---------- the reader ----------

  /** Which text of UnpackPtr runs. `storesSlot`: the address of a newly allocated target is
      put in slot PtrIdx. `fullShape`: a shared target is given extent UB-LB+1 in each
      dimension, and not UB-LB. */
  datatype Variant = Variant(storesSlot: bool, fullShape: bool)

  /** As the generator emits it. */
  const EMITTED := Variant(false, false)
  /** As the slot lookup presupposes it, and as the registry emits it for derived types. */
  const REPAIRED := Variant(true, true)

  /** `heap[a - 1]` is the target allocated at address a. */
  datatype Reader = Reader(
    file: seq<int>, pos: nat, numData: nat, table: seq<Addr>, heap: seq<seq<int>>, status: Status)

  /** A call of RegUnpack, RegUnpackAlloc or RegUnpackPtr: what the caller fixes before reading. */
  datatype Shape = PlainShape(count: nat) | AllocShape(rank: nat) | PtrShape(rank: nat)

  /** What such a call hands back. A pointer comes back as an address with bounds. */
  datatype Out =
    | NoValue
    | PlainOut(data: seq<int>)
    | AllocOut(value: Option<Block>)
    | PtrOut(addr: Addr, lb: seq<int>, ub: seq<int>)

  /** DataNumValid. */
  function CheckNumber(r: Reader): Reader {
    if r.pos >= |r.file| then r.(numData := r.numData + 1, status := Halted)
    else if r.file[r.pos] != r.numData + 1 then
      r.(numData := r.numData + 1, pos := r.pos + 1, status := Failed)
    else r.(numData := r.numData + 1, pos := r.pos + 1)
  }

  function Unpack(r: Reader, count: nat): (Reader, seq<int>) {
    if r.status != Running then (r, []) else
    var r' := CheckNumber(r);
    if r'.status != Running then (r', [])
    else if r'.pos + count > |r.file| then (r'.(status := Halted), [])
    else (r'.(pos := r'.pos + count), r.file[r'.pos..r'.pos + count])
  }

  function UnpackBounds(r: Reader, rank: nat): (res: (Reader, seq<int>, seq<int>))
    ensures res.0.status == Running ==> |res.1| == |res.2| == rank
  {
    if rank == 0 then (r, [], []) else
    var (r1, lb) := Unpack(r, rank);
    var (r2, ub) := Unpack(r1, rank);
    (r2, lb, ub)
  }

  function UnpackAlloc(r: Reader, rank: nat, granted: bool): (Reader, Out) {
    if r.status != Running then (r, NoValue) else
    var (r1, flag) := Unpack(r, 1);
    if r1.status != Running then (r1, NoValue)
    else if flag == [0] then (r1, AllocOut(None)) else
    var (r2, lb, ub) := UnpackBounds(r1, rank);
    if r2.status != Running then (r2, NoValue)
    else if !granted then (r2.(status := Failed), NoValue) else
    var (r3, data) := Unpack(r2, Extent(lb, ub));
    if r3.status != Running then (r3, NoValue)
    else (r3, AllocOut(Some(Block(lb, ub, data))))
  }

  /** The pointer found in slot Idx, with Idx; null when the slot is still empty. */
  function UnpackPointer(r: Reader): (res: (Reader, Addr, int))
    ensures res.0.status == Running ==> 1 <= res.2 <= |res.0.table|
  {
    if r.status != Running then (r, NULL, 0) else
    var (r1, idx) := Unpack(r, 1);
    if r1.status != Running then (r1, NULL, 0)
    else if |idx| == 1 && 1 <= idx[0] <= |r1.table| then (r1, r1.table[idx[0] - 1], idx[0])
    else (r1.(status := Halted), NULL, 0)
  }

  /** Upper bounds of a shared view whose extents are UB-LB, or zero if that is negative. */
  function ShortUpper(lb: seq<int>, ub: seq<int>): (s: seq<int>)
    requires |lb| == |ub|
    ensures |s| == |ub|
  {
    seq(|ub|, i requires 0 <= i < |ub| => if lb[i] < ub[i] then ub[i] - 1 else lb[i] - 1)
  }

  /** Upper bounds of a shared view. */
  function ViewUpper(v: Variant, lb: seq<int>, ub: seq<int>): (s: seq<int>)
    requires |lb| == |ub|
    ensures |s| == |ub|
  {
    if v.fullShape then ub else ShortUpper(lb, ub)
  }

  /** Allocates and reads the target of a pointer whose slot idx is still empty. */
  function UnpackTarget(v: Variant, r: Reader, lb: seq<int>, ub: seq<int>, idx: int, granted: bool): (Reader, Out)
    requires |lb| == |ub| && 1 <= idx <= |r.table|
  {
    if !granted then (r.(status := Failed), NoValue) else
    var (r', data) := Unpack(r, Extent(lb, ub));
    if r'.status != Running then (r', NoValue) else
    var next := |r'.heap| + 1;
    (r'.(heap := r'.heap + [data],
         table := if v.storesSlot then r'.table[idx - 1 := next] else r'.table),
     PtrOut(next, lb, ub))
  }

  function UnpackPtr(v: Variant, r: Reader, rank: nat, granted: bool): (Reader, Out) {
    if r.status != Running then (r, NoValue) else
    var (r1, flag) := Unpack(r, 1);
    if r1.status != Running then (r1, NoValue)
    else if flag == [0] then (r1, PtrOut(NULL, [], [])) else
    var (r2, lb, ub) := UnpackBounds(r1, rank);
    if r2.status != Running then (r2, NoValue) else
    var (r3, a, idx) := UnpackPointer(r2);
    if r3.status != Running then (r3, NoValue)
    else if a != NULL then (r3, PtrOut(a, lb, ViewUpper(v, lb, ub)))
    else UnpackTarget(v, r3, lb, ub, idx, granted)
  }

  function UnpackItem(v: Variant, r: Reader, shape: Shape, granted: bool): (Reader, Out) {
    match shape
    case PlainShape(n) =>
      var (r', data) := Unpack(r, n);
      (r', if r'.status == Running then PlainOut(data) else NoValue)
    case AllocShape(rank) => UnpackAlloc(r, rank, granted)
    case PtrShape(rank) => UnpackPtr(v, r, rank, granted)
  }

  function UnpackAll(v: Variant, r: Reader, shapes: seq<Shape>, granted: seq<bool>): (res: (Reader, seq<Out>))
    requires |granted| == |shapes|
    ensures |res.1| == |shapes|
  {
    if shapes == [] then (r, []) else
    var n := |shapes| - 1;
    var (r1, outs) := UnpackAll(v, r, shapes[..n], granted[..n]);
    var (r2, out) := UnpackItem(v, r1, shapes[n], granted[n]);
    (r2, outs + [out])
  }

  /** OpenRegFile on a file whose header is the cell at `offset`. */
  function Open(file: seq<int>, offset: nat): Reader
    requires offset < |file|
  {
    var size := if file[offset] < 0 then 0 else file[offset];
    Reader(file, offset + 1, 0, seq(size, _ => NULL), [], Running)
  }
}

/**
 The emitted run-time library: a RegFile object whose routines write and read the
 stream of module RegStream, each proved against the state machine there.
 */
module RegFiles {
  import opened Wrappers
  import opened RegStream

  class RegFile {
    var unit: seq<int>          // the cells of the connected file
    var pos: nat                // reading position
    var offset: nat             // index of the header cell
    var pointers: array?<Addr>  // null while not allocated
    var numData: nat
    var numPointers: int
    var status: Status
    var heap: seq<seq<int>>     // targets allocated while reading
    ghost var copied: nat       // slots moved by growth steps since InitRegFile

    ghost predicate Writing()
      reads this, pointers
    {
      && (pointers != null ==> 0 <= numPointers <= pointers.Length)
      && (status == Running ==> offset < |unit| && pointers != null)
    }

    ghost function AsWriter(): Writer
      requires Writing()
      reads this, pointers
    {
      Writer(
        if offset < |unit| then unit[offset] else -1,
        if offset < |unit| then unit[offset + 1..] else [],
        numData,
        if pointers == null then [] else pointers[..numPointers],
        if pointers == null then 0 else pointers.Length,
        copied,
        status)
    }

    ghost predicate Reading()
      reads this
    {
      status == Running ==> pointers != null
    }

    ghost function AsReader(): Reader
      reads this, pointers
    {
      Reader(unit, pos, numData, if pointers == null then [] else pointers[..], heap, status)
    }

    constructor ()
      ensures status == Failed && pointers == null && Writing() && Reading()
    {
      unit, pos, offset, pointers := [], 0, 0, null;
      numData, numPointers, status, heap := 0, 0, Failed, [];
      copied := 0;
    }

    // ---------- opening and closing ----------

    /** Starts writing behind whatever `before` holds. A table left from an earlier use of the
        object is kept at its size. */
    method InitRegFile(before: seq<int>, writable: bool, granted: bool) returns (err: bool)
      modifies this, pointers
      ensures err == !(writable && (old(pointers) != null || granted))
      ensures !err ==> Writing() && offset == |before| && before <= unit
      ensures !err ==> AsWriter() == NewWriter(if old(pointers) == null then 128 else old(pointers.Length))
      ensures !err ==> pointers == old(pointers) || fresh(pointers)
      ensures !err ==> forall i :: 0 <= i < pointers.Length ==> pointers[i] == NULL
    {
      err := false;
      status, numData, numPointers, copied := Running, 0, 0, 0;
      unit, offset := before, |before|;
      if !writable {
        return true;
      }
      unit := unit + [-1];
      if pointers == null {
        if !granted {
          return true;
        }
        pointers := new Addr[FRESH_TABLE_SIZE];
      }
      forall i | 0 <= i < pointers.Length {
        pointers[i] := NULL;
      }
    }

    /** Writes the number of pointers over the header, or leaves it invalid after an error. */
    method CloseRegFile(writable: bool) returns (err: bool)
      requires Writing() && status != Halted
      modifies this
      ensures err == (old(status) != Running || !writable)
      ensures err ==> unit == old(unit) && pointers == old(pointers)
      ensures !err ==> pointers == null && offset < |old(unit)|
      ensures !err ==> unit == old(unit)[offset := Close(old(AsWriter())).header]
      ensures offset == old(offset) && status == old(status)
    {
      if status != Running || !writable {
        return true;
      }
      unit := unit[offset := numPointers];
      pointers := null;
      err := false;
    }

    /** Reads the header at `start` and sets up an all-null pointer table of that size. When the table
        is refused, the assignment to it behind the allocation is taken to stop the program. */
    method OpenRegFile(file: seq<int>, start: nat, granted: bool) returns (err: bool)
      modifies this
      ensures err == (start >= |file| || !granted)
      ensures !err ==> Reading() && AsReader() == Open(file, start) && fresh(pointers)
      ensures !err ==> pointers.Length == |Open(file, start).table|
      ensures start >= |file| ==> status == old(status) && pointers == old(pointers)
      ensures start < |file| && !granted ==> status == Halted && pointers == null
    {
      if start >= |file| {
        return true;
      }
      unit, numPointers, pos := file, file[start], start + 1;
      pointers := null;
      if !granted {
        status := Halted;
        return true;
      }
      pointers := new Addr[if numPointers < 0 then 0 else numPointers](_ => NULL);
      numData, heap, status := 0, [], Running;
      err := false;
    }

    // ---------- writing ----------

    method RegPack(data: seq<int>)
      requires Writing()
      modifies this`unit, this`numData
      ensures Writing() && AsWriter() == Pack(old(AsWriter()), data)
      ensures old(unit) <= unit
    {
      if status != Running {
        return;
      }
      numData := numData + 1;
      unit := unit + [numData];
      unit := unit + data;
    }

    method RegPackBounds(b: Block)
      requires Writing() && b.lb != []
      modifies this`unit, this`numData
      ensures Writing() && AsWriter() == PackBounds(old(AsWriter()), b)
      ensures old(unit) <= unit
    {
      if status != Running {
        return;
      }
      RegPack(b.lb);
      RegPack(b.ub);
    }

    /** The linear search of RegPackPointer: a 1-based position, or 0. */
    method FindPointer(ptr: Addr) returns (i: nat)
      requires Writing() && pointers != null
      ensures i == if ptr in AsWriter().table then IndexOf(AsWriter().table, ptr) else 0
    {
      ghost var table := pointers[..numPointers];
      i := 1;
      while i <= numPointers
        invariant 1 <= i <= numPointers + 1 && ptr !in table[..i - 1]
      {
        if ptr == pointers[i - 1] {
          IndexOfUnique(table, ptr, i);
          return;
        }
        i := i + 1;
      }
      assert table[..numPointers] == table;
      i := 0;
    }

    /** Replaces a full table by one of int(1.5*NumPointers) slots. */
    method GrowTable(granted: bool)
      requires Writing() && status == Running && numPointers == pointers.Length
      modifies this`pointers, this`status, this`copied
      ensures Writing() && AsWriter() == Grow(old(AsWriter()), granted)
      ensures pointers == null || fresh(pointers)
    {
      var pointersTmp := pointers;
      pointers := null;
      if !granted {
        status := Failed;
        return;
      }
      pointers := new Addr[3 * numPointers / 2](_ => NULL);
      forall k | 0 <= k < pointersTmp.Length {
        pointers[k] := pointersTmp[k];
      }
      copied := copied + pointersTmp.Length;
      assert pointers[..numPointers] == pointersTmp[..numPointers];
    }

    /** Stores the address behind the last one; a table with no room stops the program. */
    method AppendPointer(ptr: Addr)
      requires Writing() && status == Running
      modifies this`numPointers, this`status, pointers
      ensures Writing() && AsWriter() == Register(old(AsWriter()), ptr)
    {
      if numPointers == pointers.Length {
        status := Halted;
        return;
      }
      ghost var table := pointers[..numPointers];
      pointers[numPointers] := ptr;
      numPointers := numPointers + 1;
      assert pointers[..numPointers] == table + [ptr];
    }

    /** Looks the address up, registers it when it is new, and packs its index. */
    method RegPackPointer(ptr: Addr, granted: bool) returns (found: bool)
      requires Writing() && ptr != NULL
      modifies this, pointers
      ensures Writing() && AsWriter() == PackPointer(old(AsWriter()), ptr, granted)
      ensures old(status) == Running ==> found == (ptr in old(AsWriter()).table)
      ensures pointers == old(pointers) || pointers == null || fresh(pointers)
      ensures offset == old(offset) && old(unit) <= unit
    {
      found := false;
      if status != Running {
        return;
      }
      var i := FindPointer(ptr);
      if i != 0 {
        RegPack([i]);
        return true;
      }
      if numPointers == pointers.Length {
        GrowTable(granted);
        if status != Running {
          return;
        }
      }
      AppendPointer(ptr);
      RegPack([numPointers]);
    }

    method RegPackAlloc(value: Option<Block>)
      requires Writing()
      modifies this`unit, this`numData
      ensures Writing() && AsWriter() == PackItem(old(AsWriter()), Allocatable(value), true)
      ensures old(unit) <= unit
    {
      if status != Running {
        return;
      }
      RegPack([if value.Some? then 1 else 0]);
      if value.None? {
        return;
      }
      if value.value.lb != [] {
        RegPackBounds(value.value);
      }
      RegPack(value.value.data);
    }

    /** The flag of an associated pointer and its bounds. */
    method PackAssociated(target: Block)
      requires Writing()
      modifies this`unit, this`numData
      ensures Writing() && AsWriter() == PackBounds(Pack(old(AsWriter()), [1]), target)
      ensures old(unit) <= unit
    {
      RegPack([1]);
      if target.lb != [] {
        RegPackBounds(target);
      }
    }

    method RegPackPtr(ptr: Addr, target: Block, granted: bool)
      requires Writing()
      modifies this, pointers
      ensures Writing() && AsWriter() == PackItem(old(AsWriter()), Pointer(ptr, target), granted)
      ensures pointers == old(pointers) || pointers == null || fresh(pointers)
      ensures offset == old(offset) && old(unit) <= unit
    {
      if status != Running {
        return;
      }
      if ptr == NULL {
        RegPack([0]);
        return;
      }
      PackAssociated(target);
      PackIndexAndData(ptr, target, granted);
    }

    /** The index of the pointer, and its data at first sight. */
    method PackIndexAndData(ptr: Addr, target: Block, granted: bool)
      requires Writing() && ptr != NULL && status == Running
      modifies this, pointers
      ensures Writing()
      ensures var w := old(AsWriter());
        var w' := PackPointer(w, ptr, granted);
        AsWriter() == if ptr in w.table then w' else Pack(w', target.data)
      ensures pointers == old(pointers) || pointers == null || fresh(pointers)
      ensures offset == old(offset) && old(unit) <= unit
    {
      var inIndex := RegPackPointer(ptr, granted);
      if status != Running || inIndex {
        return;
      }
      RegPack(target.data);
    }

    // ---------- reading ----------

    method DataNumValid() returns (match_: bool)
      requires Reading() && status == Running
      modifies this`numData, this`pos, this`status
      ensures Reading() && AsReader() == CheckNumber(old(AsReader()))
      ensures match_ == (status == Running)
    {
      numData := numData + 1;
      if pos >= |unit| {
        status := Halted;
        return false;
      }
      var dataNum := unit[pos];
      pos := pos + 1;
      if dataNum != numData {
        status := Failed;
        return false;
      }
      return true;
    }

    method RegUnpack(count: nat) returns (data: seq<int>)
      requires Reading()
      modifies this`numData, this`pos, this`status
      ensures Reading() && (AsReader(), data) == Unpack(old(AsReader()), count)
    {
      data := [];
      if status != Running {
        return;
      }
      var valid := DataNumValid();
      if !valid {
        return;
      }
      if pos + count > |unit| {
        status := Halted;
        return;
      }
      data := unit[pos..pos + count];
      pos := pos + count;
    }

    method RegUnpackBounds(rank: nat) returns (lb: seq<int>, ub: seq<int>)
      requires Reading() && rank > 0
      modifies this`numData, this`pos, this`status
      ensures Reading()
      ensures (AsReader(), lb, ub) == UnpackBounds(old(AsReader()), rank)
    {
      lb := RegUnpack(rank);
      ub := RegUnpack(rank);
    }

    method RegUnpackAlloc(rank: nat, granted: bool) returns (out: Out)
      requires Reading()
      modifies this`numData, this`pos, this`status
      ensures Reading() && (AsReader(), out) == UnpackAlloc(old(AsReader()), rank, granted)
    {
      out := NoValue;
      if status != Running {
        return;
      }
      var flag := RegUnpack(1);
      if status != Running {
        return;
      }
      if flag == [0] {
        return AllocOut(None);
      }
      var lb, ub := [], [];
      if rank > 0 {
        lb, ub := RegUnpackBounds(rank);
        if status != Running {
          return;
        }
      }
      if !granted {
        status := Failed;
        return;
      }
      var data := RegUnpack(Extent(lb, ub));
      if status != Running {
        return;
      }
      return AllocOut(Some(Block(lb, ub, data)));
    }

    method RegUnpackPointer() returns (ptr: Addr, idx: int)
      requires Reading()
      modifies this`numData, this`pos, this`status
      ensures Reading() && (AsReader(), ptr, idx) == UnpackPointer(old(AsReader()))
    {
      ptr, idx := NULL, 0;
      if status != Running {
        return;
      }
      var cell := RegUnpack(1);
      if status != Running {
        return;
      }
      if !(1 <= cell[0] <= pointers.Length) {
        status := Halted;
        return;
      }
      return pointers[cell[0] - 1], cell[0];
    }

    /** Allocates the target and reads it; `v` says whether its address is recorded. */
    method AllocateTarget(v: Variant, lb: seq<int>, ub: seq<int>, idx: int, granted: bool) returns (out: Out)
      requires Reading() && status == Running && |lb| == |ub| && 1 <= idx <= pointers.Length
      modifies this`numData, this`pos, this`status, this`heap, pointers
      ensures Reading() && (AsReader(), out) == UnpackTarget(v, old(AsReader()), lb, ub, idx, granted)
    {
      out := NoValue;
      if !granted {
        status := Failed;
        return;
      }
      var data := RegUnpack(Extent(lb, ub));
      if status != Running {
        return;
      }
      heap := heap + [data];
      if v.storesSlot {
        pointers[idx - 1] := |heap|;
      }
      return PtrOut(|heap|, lb, ub);
    }

    /** `v` chooses between the emitted text and the repaired one. */
    method RegUnpackPtr(v: Variant, rank: nat, granted: bool) returns (out: Out)
      requires Reading()
      modifies this`numData, this`pos, this`status, this`heap, pointers
      ensures Reading() && (AsReader(), out) == UnpackPtr(v, old(AsReader()), rank, granted)
    {
      out := NoValue;
      if status != Running {
        return;
      }
      var flag := RegUnpack(1);
      if status != Running {
        return;
      }
      if flag == [0] {
        return PtrOut(NULL, [], []);
      }
      var lb, ub := [], [];
      if rank > 0 {
        lb, ub := RegUnpackBounds(rank);
        if status != Running {
          return;
        }
      }
      var ptr, idx := RegUnpackPointer();
      if status != Running {
        return;
      }
      if ptr != NULL {
        return PtrOut(ptr, lb, ViewUpper(v, lb, ub));
      }
      out := AllocateTarget(v, lb, ub, idx, granted);
    }
  }

  /** The first position found by a scan is the index of the specification. */
  lemma {:induction false} IndexOfUnique(table: seq<Addr>, a: Addr, i: nat)
    requires 1 <= i <= |table| && table[i - 1] == a && a !in table[..i - 1]
    ensures IndexOf(table, a) == i
  {
    if i > 1 {
      assert table[..i - 1][0] == table[0];
      assert table[1..][..i - 2] == table[1..i - 1];
      IndexOfUnique(table[1..], a, i - 1);
    }
  }
}

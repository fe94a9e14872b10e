/**
 What every run of the checkpoint writer keeps: numbered records, a duplicate-free
 pointer table in first-use order, room for one more pointer, and a header that is
 valid only when no error occurred.
 */
module RegWriting {
  import opened RegStream

  // ---------- independent descriptions of a run ----------

  predicate IsPointer(item: Item) {
    item.Pointer? && item.addr != NULL
  }

  /** The distinct non-null addresses packed, in the order of their first use. */
  function FirstUses(items: seq<Item>): seq<Addr>
  {
    if items == [] then [] else
    var n := |items| - 1;
    var before := FirstUses(items[..n]);
    if IsPointer(items[n]) && items[n].addr !in before then before + [items[n].addr] else before
  }

  /** Exactly the packed addresses, each once. */
  lemma {:induction false} FirstUsesExact(items: seq<Item>)
    ensures NULL !in FirstUses(items)
    ensures forall i, j :: 0 <= i < j < |FirstUses(items)| ==> FirstUses(items)[i] != FirstUses(items)[j]
    ensures forall a :: a in FirstUses(items) <==>
      exists k :: 0 <= k < |items| && IsPointer(items[k]) && items[k].addr == a
  {
    if items != [] {
      var n := |items| - 1;
      FirstUsesExact(items[..n]);
      assert items == items[..n] + [items[n]];
      forall a
        ensures a in FirstUses(items) <==> exists k :: 0 <= k < |items| && IsPointer(items[k]) && items[k].addr == a
      {
        if a in FirstUses(items[..n]) {
          var k :| 0 <= k < n && IsPointer(items[..n][k]) && items[..n][k].addr == a;
          assert IsPointer(items[k]) && items[k].addr == a;
        }
      }
    }
  }

  /** The elements packed at the first use of each of those addresses. */
  function Targets(items: seq<Item>): (ts: seq<seq<int>>)
    ensures |ts| == |FirstUses(items)|
  {
    if items == [] then [] else
    var n := |items| - 1;
    var before := Targets(items[..n]);
    if IsPointer(items[n]) && items[n].addr !in FirstUses(items[..n]) then before + [items[n].target.data] else before
  }

  predicate Repeats(items: seq<Item>, k: nat)
    requires k < |items|
  {
    IsPointer(items[k]) && items[k].addr in FirstUses(items[..k])
  }

  predicate NoRepeats(items: seq<Item>) {
    forall k :: 0 <= k < |items| ==> !Repeats(items, k)
  }

  /** Records laid end to end, the k-th one behind the number k. */
  function Framed(records: seq<seq<int>>): seq<int> {
    if records == [] then [] else
    var n := |records| - 1;
    Framed(records[..n]) + [n + 1] + records[n]
  }

  /** The records one call writes, given the addresses packed before it. */
  function RecordsOf(used: seq<Addr>, item: Item): seq<seq<int>> {
    match item
    case Plain(d) => [d]
    case Allocatable(None) => [[0]]
    case Allocatable(Some(b)) => [[1]] + BoundsRecords(b) + [b.data]
    case Pointer(a, b) =>
      if a == NULL then [[0]]
      else [[1]] + BoundsRecords(b) + (if a in used then [[IndexOf(used, a)]] else [[|used| + 1], b.data])
  }

  function BoundsRecords(b: Block): seq<seq<int>> {
    if b.lb == [] then [] else [b.lb, b.ub]
  }

  function AllRecords(items: seq<Item>): seq<seq<int>> {
    if items == [] then [] else
    var n := |items| - 1;
    AllRecords(items[..n]) + RecordsOf(FirstUses(items[..n]), items[n])
  }

  function Granted(n: nat): (g: seq<bool>)
    ensures |g| == n
  {
    seq(n, _ => true)
  }

  /** A run in which no allocation of the pointer table fails. */
  function Written(capacity: nat, items: seq<Item>): Writer {
    PackAll(NewWriter(capacity), items, Granted(|items|))
  }

  // ---------- records ----------

  lemma {:induction false} FramedConcat(a: seq<seq<int>>, record: seq<int>)
    ensures Framed(a + [record]) == Framed(a) + [|a| + 1] + record
  {
    assert (a + [record])[..|a|] == a;
  }

  /** A writer state whose file consists of exactly the records numbered 1 to NumData. */
  ghost predicate Holds(w: Writer, records: seq<seq<int>>) {
    w.body == Framed(records) && w.numData == |records|
  }

  lemma {:induction false} PackAppends(w: Writer, records: seq<seq<int>>, data: seq<int>)
    requires Holds(w, records) && w.status == Running
    ensures Holds(Pack(w, data), records + [data])
  {
    FramedConcat(records, data);
  }

  lemma {:induction false} PackBoundsAppends(w: Writer, records: seq<seq<int>>, b: Block)
    requires Holds(w, records) && w.status == Running
    ensures Holds(PackBounds(w, b), records + BoundsRecords(b))
  {
    if b.lb != [] {
      PackAppends(w, records, b.lb);
      PackAppends(Pack(w, b.lb), records + [b.lb], b.ub);
      assert records + [b.lb] + [b.ub] == records + [b.lb, b.ub];
    } else {
      assert records + [] == records;
    }
  }

  /** The flag record and the bounds that open an allocated or associated value. */
  lemma {:induction false} FlagAndBoundsAppend(w: Writer, records: seq<seq<int>>, b: Block)
    requires Holds(w, records) && w.status == Running
    ensures Holds(PackBounds(Pack(w, [1]), b), records + ([[1]] + BoundsRecords(b)))
  {
    PackAppends(w, records, [1]);
    PackBoundsAppends(Pack(w, [1]), records + [[1]], b);
    assert records + [[1]] + BoundsRecords(b) == records + ([[1]] + BoundsRecords(b));
  }

  /** The index record of a pointer, and its data when the address is new. */
  lemma {:induction false} PointerAppends(w: Writer, records: seq<seq<int>>, a: Addr, data: seq<int>, granted: bool)
    returns (records': seq<seq<int>>)
    requires Holds(w, records) && w.status == Running
    ensures var w' := PackPointer(w, a, granted);
      && Holds(if a in w.table then w' else Pack(w', data), records')
      && records <= records'
      && (w'.status == Running ==>
            records' == records + (if a in w.table then [[IndexOf(w.table, a)]] else [[|w.table| + 1], data]))
  {
    if a in w.table {
      PackAppends(w, records, [IndexOf(w.table, a)]);
      return records + [[IndexOf(w.table, a)]];
    }
    var w1 := Register(Grow(w, granted), a);
    if w1.status != Running {
      return records;
    }
    PackAppends(w1, records, [|w1.table|]);
    PackAppends(Pack(w1, [|w1.table|]), records + [[|w1.table|]], data);
    records' := records + [[|w1.table|]] + [data];
    assert records' == records + [[|w.table| + 1], data];
  }

  /** Numbering survives every call, whatever the allocator answers: the file is always the
      framing of some list of NumData records. */
  lemma {:induction false} PackItemNumbers(w: Writer, records: seq<seq<int>>, item: Item, granted: bool)
    returns (records': seq<seq<int>>)
    requires Holds(w, records)
    ensures Holds(PackItem(w, item, granted), records') && records <= records'
    ensures PackItem(w, item, granted).status == Running ==> records' == records + RecordsOf(w.table, item)
  {
    records' := records;
    if w.status != Running {
      return;
    }
    match item
    case Plain(d) =>
      PackAppends(w, records, d);
      records' := records + [d];
    case Allocatable(None) =>
      PackAppends(w, records, [0]);
      records' := records + [[0]];
    case Allocatable(Some(b)) =>
      FlagAndBoundsAppend(w, records, b);
      var rs := records + ([[1]] + BoundsRecords(b));
      PackAppends(PackBounds(Pack(w, [1]), b), rs, b.data);
      records' := rs + [b.data];
      assert records' == records + RecordsOf(w.table, item);
    case Pointer(a, b) =>
      if a == NULL {
        PackAppends(w, records, [0]);
        return records + [[0]];
      }
      records' := PointerItemNumbers(w, records, item, granted);
  }

  lemma {:induction false} PointerItemNumbers(w: Writer, records: seq<seq<int>>, item: Item, granted: bool)
    returns (records': seq<seq<int>>)
    requires Holds(w, records) && w.status == Running && IsPointer(item)
    ensures Holds(PackItem(w, item, granted), records') && records <= records'
    ensures PackItem(w, item, granted).status == Running ==> records' == records + RecordsOf(w.table, item)
  {
    var b := item.target;
    FlagAndBoundsAppend(w, records, b);
    var rs := records + ([[1]] + BoundsRecords(b));
    records' := PointerAppends(PackBounds(Pack(w, [1]), b), rs, item.addr, b.data, granted);
    if PackItem(w, item, granted).status == Running {
      assert records' == records + RecordsOf(w.table, item);
    }
  }

  /** In every run the record numbers written since initialisation are exactly 1 to NumData. */
  lemma {:induction false} NumbersAreConsecutive(capacity: nat, items: seq<Item>, granted: seq<bool>)
    requires |granted| == |items|
    ensures exists records :: Holds(PackAll(NewWriter(capacity), items, granted), records)
  {
    if items == [] {
      var none: seq<seq<int>> := [];
      assert Holds(PackAll(NewWriter(capacity), items, granted), none);
    } else {
      var n := |items| - 1;
      NumbersAreConsecutive(capacity, items[..n], granted[..n]);
      var w := PackAll(NewWriter(capacity), items[..n], granted[..n]);
      var records :| Holds(w, records);
      var records' := PackItemNumbers(w, records, items[n], granted[n]);
      assert Holds(PackAll(NewWriter(capacity), items, granted), records');
    }
  }

  // ---------- the table ----------

  /** Growth keeps the table and its prefix, and makes room exactly when there are two slots. */
  lemma {:induction false} GrowthMakesRoom(w: Writer)
    requires w.status == Running && |w.table| == w.capacity
    ensures Grow(w, true).table == w.table && Grow(w, true).capacity >= w.capacity
    ensures 3 * w.capacity - 1 <= 2 * Grow(w, true).capacity <= 3 * w.capacity
    ensures Grow(w, true).capacity > w.capacity <==> w.capacity >= 2
  {
  }

  /** A call fails exactly if it has to grow the table and the allocation is refused. */
  lemma {:induction false} CallFailsExactly(w: Writer, item: Item, granted: bool)
    requires w.status == Running && |w.table| <= w.capacity
    ensures PackItem(w, item, granted).status == Failed <==>
      !granted && IsPointer(item) && item.addr !in w.table && |w.table| == w.capacity
  {
    if IsPointer(item) && item.addr !in w.table {
      TableExtended(w, item, granted);
    } else {
      TableKept(w, item, granted);
    }
  }

  /** At call k a new address finds the table full, and its growth is refused. */
  predicate IsRefused(capacity: nat, items: seq<Item>, granted: seq<bool>, k: nat)
    requires |granted| == |items| && k < |items|
  {
    var w := PackAll(NewWriter(capacity), items[..k], granted[..k]);
    && !granted[k]
    && w.status == Running && IsPointer(items[k]) && items[k].addr !in w.table && |w.table| == w.capacity
  }

  ghost predicate SomeRefused(capacity: nat, items: seq<Item>, granted: seq<bool>)
    requires |granted| == |items|
  {
    exists k :: 0 <= k < |items| && IsRefused(capacity, items, granted, k)
  }

  lemma SomeRefusedNext(capacity: nat, items: seq<Item>, granted: seq<bool>)
    requires |granted| == |items| && items != []
    ensures var n := |items| - 1;
      SomeRefused(capacity, items, granted) <==>
      SomeRefused(capacity, items[..n], granted[..n]) || IsRefused(capacity, items, granted, n)
  {
    var n := |items| - 1;
    forall k | 0 <= k < n
      ensures IsRefused(capacity, items[..n], granted[..n], k) == IsRefused(capacity, items, granted, k)
    {
      assert items[..n][..k] == items[..k] && granted[..n][..k] == granted[..k];
    }
    if SomeRefused(capacity, items[..n], granted[..n]) {
      var k :| 0 <= k < n && IsRefused(capacity, items[..n], granted[..n], k);
      assert IsRefused(capacity, items, granted, k);
    }
  }

  /** A run ends with an error exactly if the growth of the table is refused at some call. */
  lemma {:induction false} RunFailsExactly(capacity: nat, items: seq<Item>, granted: seq<bool>)
    requires |granted| == |items|
    ensures PackAll(NewWriter(capacity), items, granted).status == Failed <==> SomeRefused(capacity, items, granted)
  {
    if items != [] {
      var n := |items| - 1;
      RunFailsExactly(capacity, items[..n], granted[..n]);
      SomeRefusedNext(capacity, items, granted);
      TableIsFirstUses(capacity, items[..n], granted[..n]);
      var w := PackAll(NewWriter(capacity), items[..n], granted[..n]);
      if w.status == Running {
        CallFailsExactly(w, items[n], granted[n]);
      } else {
        assert PackItem(w, items[n], granted[n]) == w;
      }
    }
  }

  /** The bookkeeping every reachable state satisfies while no error has occurred. The copying
      done so far is paid for by the capacity gained and by the pointers registered. */
  ghost predicate TableInv(w: Writer, items: seq<Item>) {
    && w.table == FirstUses(items)
    && |w.table| <= w.capacity
  }

  ghost predicate CopyBound(w: Writer) {
    && w.capacity >= 128
    && w.copied <= 3 * (w.capacity - 128)
    && w.copied <= 4 * |w.table|
  }

  /** What a call does to the table when it registers no address. */
  lemma TableKept(w: Writer, item: Item, granted: bool)
    requires w.status == Running && (!IsPointer(item) || item.addr in w.table)
    ensures var w' := PackItem(w, item, granted);
      w'.status == Running && w'.table == w.table && w'.capacity == w.capacity && w'.copied == w.copied
  {
  }

  /** And when it does: everything is decided by the room and by the allocation. */
  lemma TableExtended(w: Writer, item: Item, granted: bool)
    requires w.status == Running && IsPointer(item) && item.addr !in w.table && |w.table| <= w.capacity
    ensures var w' := PackItem(w, item, granted);
      var g := Grow(w, granted);
      && w'.status == Register(g, item.addr).status
      && (w'.status == Running ==>
            w'.table == w.table + [item.addr] && w'.capacity == g.capacity && w'.copied == g.copied)
  {
  }

  lemma {:induction false} PackItemTable(w: Writer, items: seq<Item>, granted: bool)
    requires items != [] && TableInv(w, items[..|items| - 1]) && w.status == Running
    ensures var w' := PackItem(w, items[|items| - 1], granted);
      && (w'.status == Running ==> TableInv(w', items) && w'.capacity >= w.capacity)
      && (w.capacity >= 2 ==> w'.status != Halted)
      && (w'.status == Failed ==> !granted)
      && (CopyBound(w) && w'.status == Running ==> CopyBound(w'))
      && (granted ==> (w'.status == Halted <==> w.capacity < 2 && |FirstUses(items)| > w.capacity))
      && (w.capacity < 2 && w'.status == Running ==> w'.capacity == w.capacity)
  {
    var item := items[|items| - 1];
    if IsPointer(item) && item.addr !in w.table {
      TableExtended(w, item, granted);
      if |w.table| == w.capacity && granted {
        GrowthMakesRoom(w);
      }
    } else {
      TableKept(w, item, granted);
    }
  }

  /** In every reachable state without an error, Pointers(1:NumPointers) are the distinct addresses
      packed so far in first-use order, and a fresh table never overflows; over a run that registers
      k pointers all growth steps together move at most 4*k slots. */
  lemma {:induction false} TableIsFirstUses(capacity: nat, items: seq<Item>, granted: seq<bool>)
    requires |granted| == |items|
    ensures var w := PackAll(NewWriter(capacity), items, granted);
      && (w.status == Running ==> w.table == FirstUses(items) && |w.table| <= w.capacity)
      && (w.status == Running ==> capacity <= w.capacity)
      && (capacity >= 2 ==> w.status != Halted)
      && (w.status == Failed ==> exists k :: 0 <= k < |items| && !granted[k])
      && (capacity == 128 && w.status == Running ==> CopyBound(w) && w.copied <= 4 * |FirstUses(items)|)
  {
    if items != [] {
      var n := |items| - 1;
      TableIsFirstUses(capacity, items[..n], granted[..n]);
      var w := PackAll(NewWriter(capacity), items[..n], granted[..n]);
      if w.status == Running {
        PackItemTable(w, items, granted[n]);
      } else {
        assert PackItem(w, items[n], granted[n]) == w;
        if w.status == Failed {
          var k :| 0 <= k < |items[..n]| && !granted[..n][k];
          assert !granted[k];
        }
      }
    }
  }

  /** InitRegFile keeps a table of any size. With room for at least two pointers no run overflows it;
      with less, a run overflows exactly when it registers more distinct pointers than there are slots. */
  lemma {:induction false} OverflowExactly(capacity: nat, items: seq<Item>)
    ensures Written(capacity, items).status == Halted <==> capacity < 2 && |FirstUses(items)| > capacity
    ensures Written(capacity, items).status != Failed
    ensures Written(capacity, items).status == Running && capacity < 2 ==> Written(capacity, items).capacity == capacity
    ensures Written(capacity, items).status == Running ==> TableInv(Written(capacity, items), items)
  {
    if items != [] {
      var n := |items| - 1;
      OverflowExactly(capacity, items[..n]);
      WrittenNext(capacity, items, n);
      assert items[..n + 1] == items;
      var w := Written(capacity, items[..n]);
      if w.status == Running {
        PackItemTable(w, items, true);
        TableIsFirstUses(capacity, items[..n], Granted(n));
      } else {
        assert PackItem(w, items[n], true) == w;
      }
    }
  }

  lemma {:induction false} WrittenNext(capacity: nat, items: seq<Item>, k: nat)
    requires k < |items|
    ensures Written(capacity, items[..k + 1]) == PackItem(Written(capacity, items[..k]), items[k], true)
  {
    assert items[..k + 1][..k] == items[..k];
    assert Granted(k + 1)[..k] == Granted(k);
  }

  /** The whole file of an error-free run, record by record. */
  lemma {:induction false} FileIsFramedRecords(capacity: nat, items: seq<Item>)
    requires Written(capacity, items).status == Running
    ensures Holds(Written(capacity, items), AllRecords(items))
    ensures items != [] ==> Written(capacity, items[..|items| - 1]).status == Running
  {
    if items != [] {
      var n := |items| - 1;
      assert Granted(|items|)[..n] == Granted(n);
      var w := Written(capacity, items[..n]);
      assert w.status == Running;
      FileIsFramedRecords(capacity, items[..n]);
      OverflowExactly(capacity, items[..n]);
      var records := PackItemNumbers(w, AllRecords(items[..n]), items[n], true);
    }
  }

  /** Without an error every allocation that was asked for was granted, so that a run which ends without
      one is the run in which none fails. */
  lemma {:induction false} ErrorFreeRun(capacity: nat, items: seq<Item>, granted: seq<bool>)
    requires |granted| == |items| && PackAll(NewWriter(capacity), items, granted).status == Running
    ensures PackAll(NewWriter(capacity), items, granted) == Written(capacity, items)
  {
    if items != [] {
      var n := |items| - 1;
      var w := PackAll(NewWriter(capacity), items[..n], granted[..n]);
      ErrorFreeItem(w, items[n], granted[n]);
      ErrorFreeRun(capacity, items[..n], granted[..n]);
      assert Granted(|items|)[..n] == Granted(n);
    }
  }

  lemma ErrorFreeItem(w: Writer, item: Item, granted: bool)
    requires PackItem(w, item, granted).status == Running
    ensures w.status == Running && PackItem(w, item, granted) == PackItem(w, item, true)
  {
  }

  // ---------- errors ----------

  /** Once an error is set no later call changes anything: not the file, the counter or the table. */
  lemma {:induction false} WriteErrorIsFinal(w: Writer, items: seq<Item>, granted: seq<bool>, k: nat)
    requires |granted| == |items| && k <= |items|
    requires PackAll(w, items[..k], granted[..k]).status != Running
    ensures PackAll(w, items, granted) == PackAll(w, items[..k], granted[..k])
  {
    if k == |items| {
      assert items[..k] == items && granted[..k] == granted;
    } else {
      var n := |items| - 1;
      assert items[..n][..k] == items[..k] && granted[..n][..k] == granted[..k];
      WriteErrorIsFinal(w, items[..n], granted[..n], k);
    }
  }

  lemma {:induction false} HeaderUntouched(w: Writer, items: seq<Item>, granted: seq<bool>)
    requires |granted| == |items|
    ensures PackAll(w, items, granted).header == w.header
  {
    if items != [] {
      HeaderUntouched(w, items[..|items| - 1], granted[..|items| - 1]);
    }
  }

  /** Closing marks the file as complete exactly when no error occurred, and then with the number of
      distinct pointers; otherwise the header keeps the invalid count -1. */
  lemma {:induction false} HeaderTellsCompletion(capacity: nat, items: seq<Item>, granted: seq<bool>)
    requires |granted| == |items|
    ensures var w := PackAll(NewWriter(capacity), items, granted);
      && (w.status == Running <==> Close(w).header >= 0)
      && Close(w).header == if w.status == Running then |FirstUses(items)| else -1
  {
    HeaderUntouched(NewWriter(capacity), items, granted);
    TableIsFirstUses(capacity, items, granted);
  }

  // ---------- indices ----------

  lemma {:induction false} PrefixIndex(table: seq<Addr>, more: seq<Addr>, a: Addr)
    requires table <= more && a in table
    ensures IndexOf(more, a) == IndexOf(table, a)
  {
    if table[0] != a {
      PrefixIndex(table[1..], more[1..], a);
    }
  }


  lemma {:induction false} FreshIndex(table: seq<Addr>, a: Addr)
    requires a !in table
    ensures IndexOf(table + [a], a) == |table| + 1
  {
    if table != [] {
      assert (table + [a])[1..] == table[1..] + [a];
      FreshIndex(table[1..], a);
    }
  }


  lemma {:induction false} UsesPrefix(items: seq<Item>, k: nat)
    requires k <= |items|
    ensures FirstUses(items[..k]) <= FirstUses(items)
    ensures Targets(items[..k]) <= Targets(items)
  {
    if k == |items| {
      assert items[..k] == items;
    } else {
      assert items[..|items| - 1][..k] == items[..k];
      UsesPrefix(items[..|items| - 1], k);
    }
  }

  /** The index packed by call k. */
  function PackedIndex(items: seq<Item>, k: nat): nat
    requires k < |items| && IsPointer(items[k])
  {
    var used := FirstUses(items[..k]);
    if items[k].addr in used then IndexOf(used, items[k].addr) else |used| + 1
  }

  /** After a run without errors every index in the stream lies in 1 to the header, so that the
      reader's lookup is in range, and it names the address by its place among the first uses. */
  lemma {:induction false} IndexWithinHeader(capacity: nat, items: seq<Item>, granted: seq<bool>, k: nat)
    requires |granted| == |items| && k < |items| && IsPointer(items[k])
    requires PackAll(NewWriter(capacity), items, granted).status == Running
    ensures var records := RecordsOf(FirstUses(items[..k]), items[k]);
      records[1 + |BoundsRecords(items[k].target)|] == [PackedIndex(items, k)]
    ensures var header := Close(PackAll(NewWriter(capacity), items, granted)).header;
      1 <= PackedIndex(items, k) <= header == |FirstUses(items)|
    ensures FirstUses(items)[PackedIndex(items, k) - 1] == items[k].addr
  {
    HeaderTellsCompletion(capacity, items, granted);
    UsesPrefix(items, k);
    UsesPrefix(items, k + 1);
    assert items[..k + 1][..k] == items[..k];
    assert items[k].addr in FirstUses(items[..k + 1]);
  }
}

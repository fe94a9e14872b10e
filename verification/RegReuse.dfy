/**
 Two inputs on which the emitted checkpoint library fails: a table kept from reading a small
 checkpoint, which overflows at the next pointers, and a pointer packed twice, which the emitted
 reader does not follow.
 */
module RegReuse {
  import opened RegStream
  import opened RegFiles
  import opened RegWriting
  import opened RegRoundTrip

  /** Reading a checkpoint with at most one pointer and then writing with the same object starts the
      writer with a table of at most one slot. */
  method ReuseAfterReading(file: seq<int>, start: nat, before: seq<int>) returns (rf: RegFile)
    requires start < |file| && file[start] <= 1
    ensures fresh(rf) && rf.Writing() && rf.pointers != null && fresh(rf.pointers)
    ensures rf.AsWriter() == NewWriter(if file[start] == 1 then 1 else 0)
  {
    rf := new RegFile();
    var err := rf.OpenRegFile(file, start, true);
    err := rf.InitRegFile(before, true, true);
  }

  function TwoPointers(a: Addr, b: Block, a': Addr, b': Block): seq<Item> {
    [Pointer(a, b), Pointer(a', b')]
  }

  lemma TwoWritten(capacity: nat, a: Addr, b: Block, a': Addr, b': Block)
    ensures Written(capacity, TwoPointers(a, b, a', b')) ==
            PackItem(PackItem(NewWriter(capacity), Pointer(a, b), true), Pointer(a', b'), true)
  {
    var items := TwoPointers(a, b, a', b');
    WrittenNext(capacity, items, 0);
    WrittenNext(capacity, items, 1);
    assert items[..0] == [] && items[..1 + 1] == items;
  }

  lemma OneUse(a: Addr, b: Block)
    requires a != NULL
    ensures FirstUses([Pointer(a, b)]) == [a] && Targets([Pointer(a, b)]) == [b.data]
  {
    assert [Pointer(a, b)][..0] == [];
    assert FirstUses([]) == [] && Targets([]) == [];
  }

  lemma TwoUses(a: Addr, b: Block, a': Addr, b': Block)
    requires a != NULL && a' != NULL && a != a'
    ensures FirstUses(TwoPointers(a, b, a', b')) == [a, a']
  {
    var items := TwoPointers(a, b, a', b');
    OneUse(a, b);
    assert items[..1] == [Pointer(a, b)];
  }

  /** Two different pointers packed into such a table stop the program. */
  method OverflowAfterReading(file: seq<int>, start: nat, before: seq<int>, a: Addr, b: Block, a': Addr, b': Block)
    returns (rf: RegFile)
    requires start < |file| && file[start] <= 1
    requires a != NULL && a' != NULL && a != a'
    ensures rf.status == Halted
  {
    rf := ReuseAfterReading(file, start, before);
    ghost var capacity := if file[start] == 1 then 1 else 0;
    rf.RegPackPtr(a, b, true);
    rf.RegPackPtr(a', b', true);
    TwoWritten(capacity, a, b, a', b');
    TwoUses(a, b, a', b');
    OverflowExactly(capacity, TwoPointers(a, b, a', b'));
  }

  // ---------- a repeated pointer ----------

  function ScalarOf(x: int): Block {
    Block([], [], [x])
  }

  /** A scalar packed twice through the same pointer, and then another value. */
  function SharedScalar(x: int, y: int): seq<Item> {
    [Pointer(1, ScalarOf(x)), Pointer(1, ScalarOf(x)), Plain([y])]
  }

  lemma SharedScalarRepeats(x: int, y: int)
    ensures AllValid(SharedScalar(x, y)) && Repeats(SharedScalar(x, y), 1) && !Repeats(SharedScalar(x, y), 0)
    ensures FirstUses(SharedScalar(x, y)[..2]) == [1] && !NoRepeats(SharedScalar(x, y))
  {
    var items := SharedScalar(x, y);
    OneUse(1, ScalarOf(x));
    assert items[..1] == [items[0]] && items[..0] == [] && FirstUses([]) == [];
    assert items[..2][..1] == items[..1] && items[..2][1] == items[1];
    assert Repeats(items, 1);
  }

  /** The emitted reader takes the value behind the repeat for the shared scalar: it returns a second
      block, holding y, and is no longer in step. */
  lemma SharedScalarLost(before: seq<int>, x: int, y: int)
    ensures var items := SharedScalar(x, y);
      var (r, outs) := ReadBack(EMITTED, before, FRESH_TABLE_SIZE, items, 2);
      && r.status == Running && outs[1] == PtrOut(2, [], []) && r.heap == [[x], [y]]
      && !ConsumesExactly(EMITTED, before, FRESH_TABLE_SIZE, items, 2)
  {
    var items := SharedScalar(x, y);
    SharedScalarRepeats(x, y);
    OverflowExactly(FRESH_TABLE_SIZE, items);
    EmittedRepeatGoesUnnoticed(before, FRESH_TABLE_SIZE, items, 1);
    OneUse(1, ScalarOf(x));
    assert items[..1] == [items[0]];
    assert items[..1 + 1] == items[..2];
    assert [y][..1] == [y];
  }
}

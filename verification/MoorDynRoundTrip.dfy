/** The mooring file as printed, without rods, and what the reader makes of it. */
module MoorDynRoundTrip {
  import opened Wrappers
  import opened Text
  import opened MoorDyn
  import opened MoorDynChannels
  import opened MoorDynTitles

  // ---------- the printer ----------

  datatype LineType = LineType(columns: Line, extra: Extra)

  datatype Control = Control(channel: string, lineNumbers: seq<string>)

  /** The mooring model; each cell stands for its printed word. */
  datatype Model = Model(
    lineTypes: seq<LineType>, bodies: seq<Line>, points: seq<Line>, mooringLines: seq<Line>, failures: seq<Line>,
    controls: seq<Control>, externals: seq<Line>, options: seq<Opt>, channels: seq<string>)

  /** The tables in printing order. */
  const KINDS := [LineTypes, Bodies, Points, MooringLines, Failures, Controls, Externals]

  /** Tables whose heading is printed only when there are rows. */
  predicate IsOptional(kind: Kind) {
    kind == Bodies || kind == Failures || kind == Controls || kind == Externals
  }

  function Present(cell: Option<string>): Line {
    if cell.None? then [] else [cell.value]
  }

  function LineTypeRow(lt: LineType): Line {
    lt.columns + (Present(lt.extra.cl) + Present(lt.extra.dF) + Present(lt.extra.cF))
  }

  /** ','.join(parts) */
  function Commas(parts: seq<string>): string {
    if parts == [] then [] else if |parts| == 1 then parts[0] else parts[0] + ("," + Commas(parts[1..]))
  }

  function ControlRow(c: Control): Line {
    [c.channel] + (if c.lineNumbers == [] then [] else [Commas(c.lineNumbers)])
  }

  /** The printed rows of a table. */
  function RowsOf(m: Model, kind: Kind): seq<Line> {
    match kind
    case LineTypes => Map(LineTypeRow, m.lineTypes)
    case Bodies => m.bodies
    case Points => m.points
    case MooringLines => m.mooringLines
    case Failures => m.failures
    case Controls => Map(ControlRow, m.controls)
    case Externals => m.externals
    case _ => []
  }

  /** The two lines of column names and units below a heading. */
  type Titles = Kind -> (Line, Line)

  function PrintedTable(m: Model, titles: Titles, kind: Kind): seq<Line> {
    if IsOptional(kind) && RowsOf(m, kind) == [] then []
    else [Heading(kind), titles(kind).0, titles(kind).1] + RowsOf(m, kind)
  }

  function PrintedTables(m: Model, titles: Titles, kinds: seq<Kind>): seq<Line> {
    if kinds == [] then [] else PrintedTable(m, titles, kinds[0]) + PrintedTables(m, titles, kinds[1..])
  }

  function OptionRow(o: Opt): Line {
    [o.value, o.name] + o.description
  }

  function PrintedOptions(m: Model): seq<Line> {
    [Heading(Options)] + Map(OptionRow, m.options)
  }

  function PrintedOutputs(m: Model): seq<Line> {
    [Heading(Outputs)] + Map(ChannelRow, m.channels) + [Heading(Other)]
  }

  function Preamble(): seq<Line> {
    [FileTitle(), MADE_BY, DROPPED, NOTE]
  }

  /** write_MoorDyn */
  function Printed(m: Model, titles: Titles): seq<Line> {
    Preamble() + PrintedTables(m, titles, KINDS) + PrintedOptions(m) + PrintedOutputs(m)
  }

  // ---------- what can be printed ----------

  /** The row begins with neither a comment mark nor a rule. */
  predicate IsPlain(row: Line) {
    row != [] && !("!" <= row[0]) && !("---" <= row[0])
  }

  predicate AreLineNumbers(parts: seq<string>) {
    forall i :: 0 <= i < |parts| ==> parts[i] != [] && ',' !in parts[i]
  }

  predicate AllPlain(rows: seq<Line>) {
    forall i :: 0 <= i < |rows| ==> IsPlain(rows[i])
  }

  predicate HaveColumns(n: nat, rows: seq<Line>) {
    forall i :: 0 <= i < |rows| ==> |rows[i]| == n
  }

  /** Rows have the columns of their table. */
  predicate IsShaped(m: Model) {
    && (forall i :: 0 <= i < |m.lineTypes| ==> |m.lineTypes[i].columns| == 10)
    && HaveColumns(14, m.bodies) && HaveColumns(9, m.points) && HaveColumns(7, m.mooringLines)
    && HaveColumns(5, m.failures) && HaveColumns(6, m.externals)
    && (forall i :: 0 <= i < |m.controls| ==> AreLineNumbers(m.controls[i].lineNumbers))
    && AreWords(m.channels)
  }

  /** No row of a table begins with a rule or a comment mark. */
  ghost predicate HasPlainRows(m: Model) {
    forall k: Kind :: AllPlain(RowsOf(m, k))
  }

  ghost predicate HasPlainTables(m: Model) {
    IsShaped(m) && HasPlainRows(m)
  }

  predicate HasPlainOptions(m: Model) {
    AllPlain(Map(OptionRow, m.options))
  }

  ghost predicate IsPrintable(m: Model) {
    HasPlainTables(m) && HasPlainOptions(m)
  }

  // ---------- reading one part ----------

  function Fold<T>(step: (T, Line) -> Option<T>, items: seq<Line>, acc: T): Option<T> {
    if items == [] then Some(acc)
    else
      match step(acc, items[0])
      case None => None
      case Some(next) => Fold(step, items[1..], next)
  }

  /** The reading loop takes exactly the items in front of the line that stops it. */
  lemma {:induction false} ItemsRead<T>(
      stop: Line -> bool, step: (T, Line) -> Option<T>, before: seq<Line>, items: seq<Line>, after: seq<Line>, acc: T)
    requires forall i :: 0 <= i < |items| ==> !IsFiltered(items[i]) && !stop(items[i])
    requires after != [] && !IsFiltered(after[0]) && stop(after[0])
    ensures ReadItems(stop, step, before + items + after, |before|, acc) ==
            match Fold(step, items, acc) case None => Raise case Some(v) => End(v, |before| + |items|)
    decreases |items|
  {
    var lines := before + items + after;
    if items == [] {
      assert lines[|before|] == after[0];
    } else {
      assert lines[|before|] == items[0];
      match step(acc, items[0])
      case None =>
      case Some(next) =>
        ItemsRead(stop, step, before + [items[0]], items[1..], after, next);
        assert before + [items[0]] + items[1..] + after == lines;
    }
  }

  predicate IsRow(kind: Kind, row: Line) {
    IsPlain(row) && |row| >= Columns(kind)
  }

  predicate AreRows(kind: Kind, rows: seq<Line>) {
    forall i :: 0 <= i < |rows| ==> IsRow(kind, rows[i])
  }

  function StoredRows(kind: Kind, rows: seq<Line>): seq<Line>
    requires AreRows(kind, rows)
  {
    if rows == [] then [] else [Stored(kind, rows[0])] + StoredRows(kind, rows[1..])
  }

  function StoredExtras(kind: Kind, rows: seq<Line>): seq<Extra> {
    if rows == [] || kind != LineTypes then [] else ExtrasOf(rows[0]) + StoredExtras(kind, rows[1..])
  }

  function TableOf(kind: Kind, rows: seq<Line>): Table
    requires AreRows(kind, rows)
  {
    Table(StoredRows(kind, rows), StoredExtras(kind, rows))
  }

  lemma AddsRow(kind: Kind, table: Table, row: Line)
    requires |row| >= Columns(kind)
    ensures AddRow(kind, table, row) ==
            Some(Table(table.rows + [Stored(kind, row)],
                       table.extras + (if kind == LineTypes then ExtrasOf(row) else [])))
  {
    assert table.extras + [] == table.extras;
  }

  lemma Regroup<T>(a: seq<T>, x: seq<T>, b: seq<T>)
    ensures a + x + b == a + (x + b)
  {
  }

  lemma {:induction false} TableFolded(kind: Kind, rows: seq<Line>, table: Table)
    requires AreRows(kind, rows)
    ensures Fold(RowStep(kind), rows, table) ==
            Some(Table(table.rows + StoredRows(kind, rows), table.extras + StoredExtras(kind, rows)))
  {
    if rows == [] {
      assert table.rows + [] == table.rows && table.extras + [] == table.extras;
    } else {
      assert IsRow(kind, rows[0]);
      AddsRow(kind, table, rows[0]);
      var next := AddRow(kind, table, rows[0]).value;
      TableFolded(kind, rows[1..], next);
      Regroup(table.rows, [Stored(kind, rows[0])], StoredRows(kind, rows[1..]));
      if kind == LineTypes {
        Regroup(table.extras, ExtrasOf(rows[0]), StoredExtras(kind, rows[1..]));
      }
    }
  }

  predicate StartsWithRule(lines: seq<Line>) {
    lines != [] && !IsFiltered(lines[0]) && IsRule(lines[0])
  }

  predicate IsTable(kind: Kind) {
    kind != Options && kind != Outputs && kind != Other
  }

  lemma RowsRead(kind: Kind, front: seq<Line>, rows: seq<Line>, after: seq<Line>)
    requires AreRows(kind, rows) && StartsWithRule(after)
    ensures ReadItems(IsRule, RowStep(kind), front + rows + after, |front|, NO_ROWS) ==
            End(TableOf(kind, rows), |front| + |rows|)
  {
    assert forall i :: 0 <= i < |rows| ==> IsRow(kind, rows[i]);
    ItemsRead(IsRule, RowStep(kind), front, rows, after, NO_ROWS);
    TableFolded(kind, rows, NO_ROWS);
    assert [] + StoredRows(kind, rows) == StoredRows(kind, rows);
    assert [] + StoredExtras(kind, rows) == StoredExtras(kind, rows);
  }

  lemma TableStep(kindOf: Line -> Kind, lines: seq<Line>, i: nat, t: Tables, table: Table, at: nat)
    requires i < |lines| && IsTable(kindOf(lines[i]))
    requires ReadItems(IsRule, RowStep(kindOf(lines[i])), lines, i + 3, NO_ROWS) == End(table, at)
    ensures ReadFrom(kindOf, lines, i, t) == ReadFrom(kindOf, lines, at, StoreTable(t, kindOf(lines[i]), table))
  {
  }

  /** A heading, two lines that are skipped, and rows: the table is stored and the reader stands at the next rule. */
  lemma PartRead(
      kindOf: Line -> Kind, kind: Kind, head: seq<Line>, rows: seq<Line>, before: seq<Line>, after: seq<Line>,
      t: Tables)
    requires |head| == 3 && kindOf(head[0]) == kind && IsTable(kind)
    requires AreRows(kind, rows) && StartsWithRule(after)
    ensures ReadFrom(kindOf, before + (head + rows) + after, |before|, t) ==
            ReadFrom(kindOf, before + (head + rows) + after, |before + (head + rows)|,
                     StoreTable(t, kind, TableOf(kind, rows)))
  {
    var lines := before + (head + rows) + after;
    assert lines == before + head + rows + after;
    assert lines[|before|] == head[0];
    RowsRead(kind, before + head, rows, after);
    TableStep(kindOf, lines, |before|, t, TableOf(kind, rows), |before + (head + rows)|);
  }

  // ---------- reading all tables ----------

  /** Every printed heading announces its part. */
  predicate Tells(kindOf: Line -> Kind) {
    forall k: Kind :: IsPrinted(k) ==> kindOf(Heading(k)) == k
  }

  /** The tables once one table of the model has been read. */
  function KeptTable(m: Model, kind: Kind, t: Tables): Tables
    requires AreRows(kind, RowsOf(m, kind))
  {
    if IsOptional(kind) && RowsOf(m, kind) == [] then t else StoreTable(t, kind, TableOf(kind, RowsOf(m, kind)))
  }

  predicate AllAreRows(m: Model, kinds: seq<Kind>) {
    forall i :: 0 <= i < |kinds| ==> IsTable(kinds[i]) && IsPrinted(kinds[i]) && AreRows(kinds[i], RowsOf(m, kinds[i]))
  }

  function AllKept(m: Model, kinds: seq<Kind>, t: Tables): Tables
    requires AllAreRows(m, kinds)
  {
    if kinds == [] then t else AllKept(m, kinds[1..], KeptTable(m, kinds[0], t))
  }

  lemma TableRead(
      kindOf: Line -> Kind, m: Model, titles: Titles, kind: Kind, before: seq<Line>, after: seq<Line>, t: Tables)
    requires Tells(kindOf) && IsTable(kind) && IsPrinted(kind) && AreRows(kind, RowsOf(m, kind))
    requires StartsWithRule(after)
    ensures var table := PrintedTable(m, titles, kind);
      ReadFrom(kindOf, before + table + after, |before|, t) ==
      ReadFrom(kindOf, before + table + after, |before + table|, KeptTable(m, kind, t))
  {
    if IsOptional(kind) && RowsOf(m, kind) == [] {
      assert before + [] == before;
    } else {
      PartRead(kindOf, kind, [Heading(kind), titles(kind).0, titles(kind).1], RowsOf(m, kind), before, after, t);
    }
  }

  lemma {:induction false} TablesStartWithRule(m: Model, titles: Titles, kinds: seq<Kind>, after: seq<Line>)
    requires StartsWithRule(after)
    ensures StartsWithRule(PrintedTables(m, titles, kinds) + after)
  {
    if kinds == [] {
      assert [] + after == after;
    } else {
      HeadingIsRule(kinds[0]);
      TablesStartWithRule(m, titles, kinds[1..], after);
      Regroup(PrintedTable(m, titles, kinds[0]), PrintedTables(m, titles, kinds[1..]), after);
    }
  }

  lemma {:induction false} TablesRead(
      kindOf: Line -> Kind, m: Model, titles: Titles, kinds: seq<Kind>, before: seq<Line>, after: seq<Line>, t: Tables)
    requires Tells(kindOf) && AllAreRows(m, kinds) && StartsWithRule(after)
    ensures var tables := PrintedTables(m, titles, kinds);
      ReadFrom(kindOf, before + tables + after, |before|, t) ==
      ReadFrom(kindOf, before + tables + after, |before + tables|, AllKept(m, kinds, t))
    decreases |kinds|
  {
    if kinds == [] {
      assert before + [] == before;
    } else {
      var one, rest := PrintedTable(m, titles, kinds[0]), PrintedTables(m, titles, kinds[1..]);
      TablesStartWithRule(m, titles, kinds[1..], after);
      TableRead(kindOf, m, titles, kinds[0], before, rest + after, t);
      TablesRead(kindOf, m, titles, kinds[1..], before + one, after, KeptTable(m, kinds[0], t));
      Regroup(before, one, rest);
      Regroup(before + one, rest, after);
    }
  }

  // ---------- options and channels ----------

  function KeptOptions(options: seq<Opt>): seq<Opt> {
    if options == [] then [] else [OptionOf(OptionRow(options[0]))] + KeptOptions(options[1..])
  }

  lemma {:induction false} OptionsFolded(options: seq<Opt>, acc: seq<Opt>)
    ensures Fold(AddOption, Map(OptionRow, options), acc) == Some(acc + KeptOptions(options))
  {
    var rows := Map(OptionRow, options);
    if options == [] {
      assert acc + [] == acc;
    } else {
      assert rows[0] == OptionRow(options[0]) && rows[1..] == Map(OptionRow, options[1..]);
      OptionsFolded(options[1..], acc + [OptionOf(rows[0])]);
      Regroup(acc, [OptionOf(rows[0])], KeptOptions(options[1..]));
    }
  }

  lemma AllOptionsFolded(options: seq<Opt>)
    ensures Fold(AddOption, Map(OptionRow, options), []) == Some(KeptOptions(options))
  {
    OptionsFolded(options, []);
    assert [] + KeptOptions(options) == KeptOptions(options);
  }

  lemma ClosingEnds()
    ensures IsEnd(Heading(Other)) && !IsFiltered(Heading(Other))
  {
    HeadingIsRule(Other);
    var (n, m) := Margins(Other);
    var line := Heading(Other);
    assert line == [Dashes(n), "END", Dashes(m)];
    assert Spaced([Dashes(m)]) == Dashes(m);
    assert line[1..] == ["END", Dashes(m)] && line[1..][1..] == [Dashes(m)];
    KeywordInside(Spaced(line), "END", Dashes(n) + " ", " " + Dashes(m)) by {
      assert Spaced(line) == Dashes(n) + (" " + ("END" + (" " + Dashes(m))));
    }
  }

  lemma OptionRowsRead(front: seq<Line>, rows: seq<Line>, after: seq<Line>, options: seq<Opt>)
    requires StartsWithRule(after) && AllPlain(rows)
    requires Fold(AddOption, rows, []) == Some(options)
    ensures ReadItems(IsRule, AddOption, front + rows + after, |front|, []) == End(options, |front| + |rows|)
  {
    assert forall i :: 0 <= i < |rows| ==> IsPlain(rows[i]);
    ItemsRead(IsRule, AddOption, front, rows, after, []);
  }

  lemma OptionStep(kindOf: Line -> Kind, lines: seq<Line>, i: nat, t: Tables, options: seq<Opt>, at: nat)
    requires i < |lines| && kindOf(lines[i]) == Options
    requires ReadItems(IsRule, AddOption, lines, i + 1, []) == End(options, at)
    ensures ReadFrom(kindOf, lines, i, t) == ReadFrom(kindOf, lines, at, t.(options := options))
  {
  }

  lemma OptionsRead(kindOf: Line -> Kind, m: Model, before: seq<Line>, after: seq<Line>, t: Tables)
    requires Tells(kindOf) && StartsWithRule(after) && AllPlain(Map(OptionRow, m.options))
    ensures var part := PrintedOptions(m);
      ReadFrom(kindOf, before + part + after, |before|, t) ==
      ReadFrom(kindOf, before + part + after, |before + part|, t.(options := KeptOptions(m.options)))
  {
    var rows := Map(OptionRow, m.options);
    var lines := before + PrintedOptions(m) + after;
    Regroup(before, [Heading(Options)], rows);
    assert lines[|before|] == Heading(Options);
    AllOptionsFolded(m.options);
    OptionRowsRead(before + [Heading(Options)], rows, after, KeptOptions(m.options));
    OptionStep(kindOf, lines, |before|, t, KeptOptions(m.options), |before + PrintedOptions(m)|);
  }

  lemma OutputStep(kindOf: Line -> Kind, lines: seq<Line>, i: nat, t: Tables, channels: set<string>, at: nat)
    requires i < |lines| && kindOf(lines[i]) == Outputs
    requires ReadItems(IsEnd, AddNames, lines, i + 1, t.channels) == End(channels, at)
    ensures ReadFrom(kindOf, lines, i, t) == Done(t.(channels := channels))
  {
  }

  lemma OutputsRead(
      kindOf: Line -> Kind, before: seq<Line>, heading: Line, rows: seq<Line>, closing: Line, names: seq<string>,
      t: Tables)
    requires kindOf(heading) == Outputs && IsEnd(closing) && !IsFiltered(closing)
    requires rows == Map(ChannelRow, names)
    ensures ReadFrom(kindOf, before + ([heading] + rows + [closing]), |before|, t) ==
            Done(t.(channels := t.channels + Kept(names)))
  {
    var front := before + [heading];
    ChannelsRead(front, names, rows, closing, t.channels);
    HeadingInFront(before, heading, rows, closing);
    var r := ReadItems(IsEnd, AddNames, front + rows + [closing], |front|, t.channels);
    OutputStep(kindOf, front + rows + [closing], |before|, t, r.value, r.at);
  }

  lemma HeadingInFront(before: seq<Line>, heading: Line, rows: seq<Line>, closing: Line)
    ensures before + ([heading] + rows + [closing]) == before + [heading] + rows + [closing]
    ensures (before + [heading] + rows + [closing])[|before|] == heading
  {
  }

  // ---------- the whole file ----------

  lemma PassedOver(kindOf: Line -> Kind, lines: seq<Line>, i: nat, t: Tables)
    requires i < |lines| && kindOf(lines[i]) == Other
    ensures ReadFrom(kindOf, lines, i, t) == ReadFrom(kindOf, lines, i + 1, t)
  {
  }

  /** The preamble leaves the reader at the first heading with nothing read: the branch for options
      that the note line opens meets a rule at once. */
  lemma PreambleRead(kindOf: Line -> Kind, preamble: seq<Line>, after: seq<Line>, t: Tables)
    requires |preamble| == 4 && StartsWithRule(after)
    requires kindOf(preamble[0]) == Other && kindOf(preamble[1]) == Other && kindOf(preamble[2]) == Other
    requires kindOf(preamble[3]) == Options
    ensures ReadFrom(kindOf, preamble + after, 0, t) == ReadFrom(kindOf, preamble + after, 4, t.(options := []))
  {
    var lines := preamble + after;
    PassedOver(kindOf, lines, 0, t);
    PassedOver(kindOf, lines, 1, t);
    PassedOver(kindOf, lines, 2, t);
    assert lines[4] == after[0];
    OptionStep(kindOf, lines, 3, t, [], 4);
  }

  /** What the reader has at the end of a printed file. */
  function Reread(m: Model): Tables
    requires AllAreRows(m, KINDS)
  {
    var t := AllKept(m, KINDS, NOTHING).(options := KeptOptions(m.options));
    t.(channels := t.channels + Kept(m.channels))
  }

  /** The preamble and the tables are read, whatever the options and channels are. */
  lemma FrontRead(kindOf: Line -> Kind, m: Model, titles: Titles, preamble: seq<Line>)
    requires Tells(kindOf) && AllAreRows(m, KINDS)
    requires |preamble| == 4 && kindOf(preamble[3]) == Options
    requires kindOf(preamble[0]) == Other && kindOf(preamble[1]) == Other && kindOf(preamble[2]) == Other
    ensures var front := preamble + PrintedTables(m, titles, KINDS);
      var lines := front + PrintedOptions(m) + PrintedOutputs(m);
      ReadFrom(kindOf, lines, 0, NOTHING) == ReadFrom(kindOf, lines, |front|, AllKept(m, KINDS, NOTHING))
  {
    var tables, options, outputs := PrintedTables(m, titles, KINDS), PrintedOptions(m), PrintedOutputs(m);
    HeadingIsRule(Options);
    TablesStartWithRule(m, titles, KINDS, options + outputs);
    PreambleRead(kindOf, preamble, tables + (options + outputs), NOTHING);
    TablesRead(kindOf, m, titles, KINDS, preamble, options + outputs, NOTHING);
    Regroup(preamble + tables, options, outputs);
    Regroup(preamble, tables, options + outputs);
  }

  lemma PrintedRead(kindOf: Line -> Kind, m: Model, titles: Titles, preamble: seq<Line>)
    requires Tells(kindOf) && AllAreRows(m, KINDS)
    requires |preamble| == 4 && kindOf(preamble[3]) == Options
    requires kindOf(preamble[0]) == Other && kindOf(preamble[1]) == Other && kindOf(preamble[2]) == Other
    requires AllPlain(Map(OptionRow, m.options))
    ensures var lines := preamble + PrintedTables(m, titles, KINDS) + PrintedOptions(m) + PrintedOutputs(m);
      ReadFrom(kindOf, lines, 0, NOTHING) == Done(Reread(m))
  {
    var tables, options, outputs := PrintedTables(m, titles, KINDS), PrintedOptions(m), PrintedOutputs(m);
    HeadingIsRule(Outputs);
    ClosingEnds();
    FrontRead(kindOf, m, titles, preamble);
    var t := AllKept(m, KINDS, NOTHING);
    OptionsRead(kindOf, m, preamble + tables, outputs, t);
    OutputsRead(
      kindOf, preamble + tables + options, Heading(Outputs), Map(ChannelRow, m.channels), Heading(Other), m.channels,
      t.(options := KeptOptions(m.options)));
  }

  // ---------- what comes back ----------

  /** The lists of a table; an absent table is empty. */
  function Held(t: Tables, kind: Kind): seq<Line> {
    if kind in t.rows then t.rows[kind] else []
  }

  predicate AreDistinct(kinds: seq<Kind>) {
    forall i, j :: 0 <= i < j < |kinds| ==> kinds[i] != kinds[j]
  }

  lemma {:induction false} KeptTables(m: Model, kinds: seq<Kind>, t: Tables, kind: Kind)
    requires AllAreRows(m, kinds) && AreDistinct(kinds)
    requires forall k <- kinds :: k !in t.rows
    ensures var kept := AllKept(m, kinds, t);
      && (kind in kinds ==> AreRows(kind, RowsOf(m, kind)) && Held(kept, kind) == StoredRows(kind, RowsOf(m, kind)))
      && (kind !in kinds ==> Held(kept, kind) == Held(t, kind))
    decreases |kinds|
  {
    if kinds != [] {
      var next := KeptTable(m, kinds[0], t);
      assert kinds == [kinds[0]] + kinds[1..];
      KeptTables(m, kinds[1..], next, kind);
    }
  }

  lemma {:induction false} KeptRest(m: Model, kinds: seq<Kind>, t: Tables)
    requires AllAreRows(m, kinds) && AreDistinct(kinds)
    ensures var kept := AllKept(m, kinds, t);
      && kept.channels == t.channels && kept.options == t.options
      && kept.extras == if LineTypes in kinds then StoredExtras(LineTypes, RowsOf(m, LineTypes)) else t.extras
    decreases |kinds|
  {
    if kinds != [] {
      assert kinds == [kinds[0]] + kinds[1..];
      KeptRest(m, kinds[1..], KeptTable(m, kinds[0], t));
    }
  }

  function ColumnsIn(lt: LineType): Line {
    lt.columns
  }

  function ControlCells(c: Control): Line {
    [c.channel] + c.lineNumbers
  }

  /** The cells the reader is meant to find in a table. */
  function CellsOf(m: Model, kind: Kind): seq<Line> {
    match kind
    case LineTypes => Map(ColumnsIn, m.lineTypes)
    case Controls => Map(ControlCells, m.controls)
    case _ => RowsOf(m, kind)
  }

  lemma {:induction false} StoredRowsAt(kind: Kind, rows: seq<Line>, i: nat)
    requires AreRows(kind, rows) && i < |rows|
    ensures |StoredRows(kind, rows)| == |rows| && StoredRows(kind, rows)[i] == Stored(kind, rows[i])
  {
    if |rows| > 1 {
      StoredRowsAt(kind, rows[1..], if i > 0 then i - 1 else 0);
    } else {
      assert StoredRows(kind, rows[1..]) == [];
    }
  }

  lemma WithoutEmptyFirst(part: string, rest: seq<string>)
    requires part != []
    ensures WithoutEmpty([part] + rest) == [part] + WithoutEmpty(rest)
  {
    assert ([part] + rest)[1..] == rest;
  }

  lemma {:induction false} CommasSplit(parts: seq<string>)
    requires parts != [] && AreLineNumbers(parts)
    ensures WithoutEmpty(Split(Commas(parts), ',')) == parts
  {
    if |parts| == 1 {
      SplitWhole(parts[0], ',');
      WithoutEmptyFirst(parts[0], []);
      assert parts == [parts[0]] + [];
    } else {
      var rest := Commas(parts[1..]);
      CommasSplit(parts[1..]);
      SplitFirst(parts[0], ',', rest);
      WithoutEmptyFirst(parts[0], Split(rest, ','));
      assert [parts[0]] + parts[1..] == parts;
    }
  }

  lemma ControlStored(c: Control)
    requires AreLineNumbers(c.lineNumbers)
    ensures Stored(Controls, ControlRow(c)) == [c.channel] + c.lineNumbers
  {
    var words := ControlRow(c)[1..];
    if c.lineNumbers == [] {
      assert words == [];
    } else {
      CommasSplit(c.lineNumbers);
      assert words == [Commas(c.lineNumbers)] && words[1..] == [];
      assert LineNumbers(words) == c.lineNumbers + [] == c.lineNumbers;
    }
  }

  lemma LineTypeStored(lt: LineType)
    requires |lt.columns| == 10
    ensures Stored(LineTypes, LineTypeRow(lt)) == lt.columns && |LineTypeRow(lt)| >= 10
  {
  }

  // ---------- the optional columns ----------

  /** Either all three columns, or at most the first. */
  predicate IsAligned(e: Extra) {
    (e.dF.None? && e.cF.None?) || (e.cl.Some? && e.dF.Some? && e.cF.Some?)
  }

  lemma ExtraStored(lt: LineType)
    requires |lt.columns| == 10
    ensures var es := ExtrasOf(LineTypeRow(lt)); |es| <= 1 && (es == [lt.extra] <==> IsAligned(lt.extra))
  {
  }

  /** A lone second or third column comes back as the first; of two columns nothing comes back. */
  lemma MisalignedColumns(columns: Line, v: string, w: string)
    requires |columns| == 10
    ensures ExtrasOf(LineTypeRow(LineType(columns, Extra(None, Some(v), None)))) == [Extra(Some(v), None, None)]
    ensures ExtrasOf(LineTypeRow(LineType(columns, Extra(None, None, Some(v))))) == [Extra(Some(v), None, None)]
    ensures ExtrasOf(LineTypeRow(LineType(columns, Extra(Some(v), Some(w), None)))) == []
  {
  }

  function ExtraIn(lt: LineType): Extra {
    lt.extra
  }

  predicate AllAligned(lineTypes: seq<LineType>) {
    forall lt <- lineTypes :: IsAligned(lt.extra)
  }

  lemma AlignedFromFirst(lineTypes: seq<LineType>)
    requires lineTypes != []
    ensures AllAligned(lineTypes) <==> IsAligned(lineTypes[0].extra) && AllAligned(lineTypes[1..])
  {
    assert lineTypes == [lineTypes[0]] + lineTypes[1..];
  }

  lemma MapFirst<A, B>(f: A -> B, s: seq<A>)
    requires s != []
    ensures Map(f, s) == [f(s[0])] + Map(f, s[1..])
  {
  }

  lemma {:induction false} ExtrasStored(lineTypes: seq<LineType>)
    requires forall i :: 0 <= i < |lineTypes| ==> |lineTypes[i].columns| == 10
    ensures var es := StoredExtras(LineTypes, Map(LineTypeRow, lineTypes));
      |es| <= |lineTypes| && (es == Map(ExtraIn, lineTypes) <==> AllAligned(lineTypes))
  {
    if lineTypes != [] {
      var first, rest := lineTypes[0], lineTypes[1..];
      MapFirst(LineTypeRow, lineTypes);
      MapFirst(ExtraIn, lineTypes);
      ExtraStored(first);
      ExtrasStored(rest);
      AlignedFromFirst(lineTypes);
      StoredExtrasFirst(LineTypeRow(first), Map(LineTypeRow, rest));
      HeadsAgree(ExtrasOf(LineTypeRow(first)), StoredExtras(LineTypes, Map(LineTypeRow, rest)),
                 first.extra, Map(ExtraIn, rest));
    }
  }

  lemma StoredExtrasFirst(row: Line, rows: seq<Line>)
    ensures StoredExtras(LineTypes, [row] + rows) == ExtrasOf(row) + StoredExtras(LineTypes, rows)
  {
    assert ([row] + rows)[1..] == rows;
  }

  lemma HeadsAgree<T>(a: seq<T>, b: seq<T>, x: T, s: seq<T>)
    requires |a| <= 1 && |b| <= |s|
    ensures a + b == [x] + s <==> a == [x] && b == s
  {
    if a + b == [x] + s {
      assert |a| == 1 && |b| == |s|;
      assert (a + b)[0] == x && (a + b)[1..] == b && ([x] + s)[1..] == s;
    }
  }

  // ---------- the options ----------

  lemma {:induction false} UnquotedExactly(s: string)
    ensures |Unquoted(s)| <= |s| && (|Unquoted(s)| == |s| ==> Unquoted(s) == s)
    ensures Unquoted(s) == s <==> s == [] || (s[0] != '\"' && s[|s| - 1] != '\"')
    decreases |s|
  {
    if s != [] && s[0] == '\"' {
      UnquotedExactly(s[1..]);
    } else if s != [] && s[|s| - 1] == '\"' {
      UnquotedExactly(s[..|s| - 1]);
    }
  }

  /** Upper case without quotes around the value, and described. */
  predicate IsKept(o: Opt) {
    && Upper(o.value) == o.value && (o.value == [] || (o.value[0] != '\"' && o.value[|o.value| - 1] != '\"'))
    && Upper(o.name) == o.name && o.description != []
  }

  lemma OptionKept(o: Opt)
    ensures OptionOf(OptionRow(o)) == o <==> IsKept(o)
  {
    UnquotedExactly(Upper(o.value));
    var row := OptionRow(o);
    assert row[0] == o.value && row[1] == o.name && row[2..] == o.description;
  }

  lemma {:induction false} OptionsKept(options: seq<Opt>)
    ensures KeptOptions(options) == options <==> forall o <- options :: IsKept(o)
  {
    if options != [] {
      OptionKept(options[0]);
      OptionsKept(options[1..]);
      assert options == [options[0]] + options[1..];
      assert KeptOptions(options)[1..] == KeptOptions(options[1..]);
    }
  }

  // ---------- the round trip ----------

  lemma {:induction false} WholeRowsStored(kind: Kind, rows: seq<Line>)
    requires AreRows(kind, rows) && HaveColumns(Columns(kind), rows) && kind != Controls
    ensures StoredRows(kind, rows) == rows
  {
    forall i | 0 <= i < |rows| ensures |StoredRows(kind, rows)| == |rows| && StoredRows(kind, rows)[i] == rows[i] {
      StoredRowsAt(kind, rows, i);
      assert rows[i][..|rows[i]|] == rows[i];
    }
  }

  lemma LineTypesStored(m: Model)
    requires HasPlainTables(m)
    ensures AreRows(LineTypes, RowsOf(m, LineTypes))
    ensures StoredRows(LineTypes, RowsOf(m, LineTypes)) == CellsOf(m, LineTypes)
  {
    var rows := RowsOf(m, LineTypes);
    assert AllPlain(rows);
    forall i | 0 <= i < |rows| ensures IsRow(LineTypes, rows[i]) {
      LineTypeStored(m.lineTypes[i]);
    }
    forall i | 0 <= i < |rows|
      ensures |StoredRows(LineTypes, rows)| == |rows| && StoredRows(LineTypes, rows)[i] == m.lineTypes[i].columns
    {
      StoredRowsAt(LineTypes, rows, i);
      LineTypeStored(m.lineTypes[i]);
    }
  }

  lemma ControlsStored(m: Model)
    requires HasPlainTables(m)
    ensures AreRows(Controls, RowsOf(m, Controls))
    ensures StoredRows(Controls, RowsOf(m, Controls)) == CellsOf(m, Controls)
  {
    var rows := RowsOf(m, Controls);
    assert AllPlain(rows);
    forall i | 0 <= i < |rows|
      ensures |StoredRows(Controls, rows)| == |rows| && StoredRows(Controls, rows)[i] == ControlCells(m.controls[i])
    {
      StoredRowsAt(Controls, rows, i);
      ControlStored(m.controls[i]);
    }
  }

  /** The reader stores the printed cells of every table, row by row. */
  lemma CellsStored(m: Model, kind: Kind)
    requires HasPlainTables(m) && kind in KINDS
    ensures AreRows(kind, RowsOf(m, kind)) && StoredRows(kind, RowsOf(m, kind)) == CellsOf(m, kind)
  {
    match kind
    case LineTypes => LineTypesStored(m);
    case Controls => ControlsStored(m);
    case _ =>
      assert AllPlain(RowsOf(m, kind));
      assert HaveColumns(Columns(kind), RowsOf(m, kind));
      assert AreRows(kind, RowsOf(m, kind));
      WholeRowsStored(kind, RowsOf(m, kind));
  }

  lemma LineKindTells()
    ensures Tells(LineKind)
  {
    forall k: Kind | IsPrinted(k) ensures LineKind(Heading(k)) == k {
      HeadingDispatched(k);
    }
  }

  lemma AllTablesAreRows(m: Model)
    requires HasPlainTables(m)
    ensures AllAreRows(m, KINDS)
  {
    forall i | 0 <= i < |KINDS|
      ensures IsTable(KINDS[i]) && IsPrinted(KINDS[i]) && AreRows(KINDS[i], RowsOf(m, KINDS[i]))
    {
      assert KINDS[i] in KINDS;
      CellsStored(m, KINDS[i]);
    }
  }

  lemma FileReread(m: Model, titles: Titles)
    requires IsPrintable(m) && AllAreRows(m, KINDS)
    ensures ReadFrom(LineKind, Printed(m, titles), 0, NOTHING) == Done(Reread(m))
  {
    LineKindTells();
    PreambleTold();
    PrintedRead(LineKind, m, titles, Preamble());
  }

  lemma PreambleTold()
    ensures var p := Preamble();
      && |p| == 4 && LineKind(p[3]) == Options
      && LineKind(p[0]) == Other && LineKind(p[1]) == Other && LineKind(p[2]) == Other
  {
    PreambleDispatched();
  }

  lemma TableRestored(m: Model, kind: Kind)
    requires HasPlainTables(m) && AllAreRows(m, KINDS)
    ensures Held(Reread(m), kind) == if kind in KINDS then CellsOf(m, kind) else []
  {
    KeptTables(m, KINDS, NOTHING, kind);
    if kind in KINDS {
      CellsStored(m, kind);
    }
  }

  lemma ListsRestored(m: Model)
    requires IsPrintable(m) && AllAreRows(m, KINDS)
    ensures Reread(m).channels == AllOf(m.channels) <==> forall i :: 0 <= i < |m.channels| ==> IsChannel(m.channels[i])
    ensures Reread(m).extras == Map(ExtraIn, m.lineTypes) <==> AllAligned(m.lineTypes)
    ensures Reread(m).options == m.options <==> forall o <- m.options :: IsKept(o)
  {
    KeptRest(m, KINDS, NOTHING);
    ChannelsKeptExactly(m.channels);
    ExtrasStored(m.lineTypes);
    OptionsKept(m.options);
  }

  /** Whatever model is printed, and whatever stands in the two lines below each heading, reading the
      file back ends normally, finds the cells of every table, and restores the optional columns, the
      options and the channels exactly when they have the form the reader keeps. */
  lemma MoorDynRoundTrip(m: Model, titles: Titles)
    requires IsPrintable(m)
    ensures var r := ReadFrom(LineKind, Printed(m, titles), 0, NOTHING);
      && r.Done?
      && (forall k: Kind :: Held(r.tables, k) == if k in KINDS then CellsOf(m, k) else [])
      && (r.tables.channels == AllOf(m.channels) <==> forall i :: 0 <= i < |m.channels| ==> IsChannel(m.channels[i]))
      && (r.tables.extras == Map(ExtraIn, m.lineTypes) <==> AllAligned(m.lineTypes))
      && (r.tables.options == m.options <==> forall o <- m.options :: IsKept(o))
  {
    AllTablesAreRows(m);
    FileReread(m, titles);
    forall k: Kind ensures Held(Reread(m), k) == if k in KINDS then CellsOf(m, k) else [] {
      TableRestored(m, k);
    }
    ListsRestored(m);
  }
}

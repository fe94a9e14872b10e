/**
 Which mooring models come back: those whose rows and options can be told from rules and comments.
 Both are shown by looking at files of any kind: only plain rows are stored, and there are never more
 options than lines that can be one.
 */
module MoorDynRows {
  import opened Wrappers
  import opened MoorDyn
  import opened MoorDynTitles
  import opened MoorDynChannels
  import opened MoorDynRoundTrip

  /** No stored row begins with a rule or a comment mark. */
  ghost predicate StoresPlain(t: Tables) {
    forall k <- t.rows :: AllPlain(t.rows[k])
  }

  lemma RowStoredPlain(kind: Kind, table: Table, row: Line)
    requires IsTable(kind) && IsPlain(row) && AllPlain(table.rows) && AddRow(kind, table, row).Some?
    ensures AllPlain(AddRow(kind, table, row).value.rows)
  {
    assert Stored(kind, row)[0] == row[0];
  }

  /** Whatever the lines are, only plain rows go into a table. */
  lemma {:induction false} RowsReadPlain(kind: Kind, lines: seq<Line>, i: nat, table: Table)
    requires IsTable(kind) && AllPlain(table.rows)
    ensures var r := ReadItems(IsRule, RowStep(kind), lines, i, table); r.End? ==> AllPlain(r.value.rows)
    decreases |lines| - i
  {
    if i < |lines| {
      if IsFiltered(lines[i]) {
        RowsReadPlain(kind, lines, i + 1, table);
      } else if !IsRule(lines[i]) {
        var next := AddRow(kind, table, lines[i]);
        if next.Some? {
          RowStoredPlain(kind, table, lines[i]);
          RowsReadPlain(kind, lines, i + 1, next.value);
        }
      }
    }
  }

  lemma TableStoredPlain(t: Tables, kind: Kind, table: Table)
    requires StoresPlain(t) && AllPlain(table.rows)
    ensures StoresPlain(StoreTable(t, kind, table))
  {
  }

  lemma {:induction false} FileReadPlain(kindOf: Line -> Kind, lines: seq<Line>, i: nat, t: Tables)
    requires StoresPlain(t)
    ensures ReadFrom(kindOf, lines, i, t).Done? ==> StoresPlain(ReadFrom(kindOf, lines, i, t).tables)
    decreases |lines| - i
  {
    if i < |lines| {
      var kind := kindOf(lines[i]);
      if kind == Other {
        FileReadPlain(kindOf, lines, i + 1, t);
      } else if kind == Options {
        var r := ReadItems(IsRule, AddOption, lines, i + 1, []);
        if r.End? {
          FileReadPlain(kindOf, lines, r.at, t.(options := r.value));
        }
      } else if kind != Outputs {
        var r := ReadItems(IsRule, RowStep(kind), lines, i + 3, NO_ROWS);
        RowsReadPlain(kind, lines, i + 3, NO_ROWS);
        if r.End? {
          TableStoredPlain(t, kind, r.value);
          FileReadPlain(kindOf, lines, r.at, StoreTable(t, kind, r.value));
        }
      }
    }
  }

  /** The cells of a table keep the first word of each of its rows. */
  lemma FirstWordsKept(m: Model, kind: Kind, i: nat)
    requires IsShaped(m) && kind in KINDS && i < |RowsOf(m, kind)|
    ensures |CellsOf(m, kind)| == |RowsOf(m, kind)|
    ensures RowsOf(m, kind)[i] != [] && CellsOf(m, kind)[i] != []
    ensures RowsOf(m, kind)[i][0] == CellsOf(m, kind)[i][0]
  {
    if kind == LineTypes {
      assert RowsOf(m, kind)[i] == LineTypeRow(m.lineTypes[i]);
    } else if kind == Controls {
      assert RowsOf(m, kind)[i] == ControlRow(m.controls[i]);
    } else {
      WholeRowCount(m, kind, i);
    }
  }

  lemma WholeRowCount(m: Model, kind: Kind, i: nat)
    requires IsShaped(m) && kind in KINDS && kind != LineTypes && kind != Controls && i < |RowsOf(m, kind)|
    ensures |RowsOf(m, kind)[i]| == Columns(kind) > 0
  {
  }

  /** The cells of every table have been read. */
  ghost predicate TablesBack(m: Model, t: Tables) {
    forall k <- KINDS :: Held(t, k) == CellsOf(m, k)
  }

  /** When every table comes back, no row begins with a rule or a comment mark. */
  lemma TablesStoredPlain(m: Model, titles: Titles)
    requires IsShaped(m)
    ensures var r := ReadFrom(LineKind, Printed(m, titles), 0, NOTHING);
      r.Done? && TablesBack(m, r.tables) ==> HasPlainRows(m)
  {
    var r := ReadFrom(LineKind, Printed(m, titles), 0, NOTHING);
    if r.Done? && TablesBack(m, r.tables) {
      FileReadPlain(LineKind, Printed(m, titles), 0, NOTHING);
      forall k: Kind ensures AllPlain(RowsOf(m, k)) {
        RestoredIsPlain(m, k, r.tables);
      }
    }
  }

  lemma RestoredIsPlain(m: Model, kind: Kind, t: Tables)
    requires IsShaped(m) && StoresPlain(t) && (kind in KINDS ==> Held(t, kind) == CellsOf(m, kind))
    ensures AllPlain(RowsOf(m, kind))
  {
    forall i | 0 <= i < |RowsOf(m, kind)| ensures IsPlain(RowsOf(m, kind)[i]) {
      FirstWordsKept(m, kind, i);
      assert AllPlain(CellsOf(m, kind));
      assert IsPlain(CellsOf(m, kind)[i]);
    }
  }

  /** The tables come back cell by cell if and only if no row begins with a rule or a comment mark. */
  lemma TablesRestoredExactly(m: Model, titles: Titles)
    requires IsShaped(m) && HasPlainOptions(m)
    ensures var r := ReadFrom(LineKind, Printed(m, titles), 0, NOTHING);
      r.Done? && TablesBack(m, r.tables) <==> HasPlainRows(m)
  {
    TablesStoredPlain(m, titles);
    if HasPlainRows(m) {
      MoorDynRoundTrip.MoorDynRoundTrip(m, titles);
    }
  }

  // ---------- the options ----------

  predicate IsOptionLine(line: Line) {
    IsPlain(line) && |line| >= 2
  }

  /** The lines from i on that can be stored as an option. */
  function OptionLines(lines: seq<Line>, i: nat): nat
    decreases |lines| - i
  {
    if i >= |lines| then 0 else (if IsOptionLine(lines[i]) then 1 else 0) + OptionLines(lines, i + 1)
  }

  lemma {:induction false} FewerBehind(lines: seq<Line>, i: nat, j: nat)
    requires i <= j
    ensures OptionLines(lines, j) <= OptionLines(lines, i)
    decreases j - i
  {
    if i < j {
      FewerBehind(lines, i + 1, j);
    }
  }

  /** One part stores no more options than there are such lines in it. */
  lemma {:induction false} PartCounted(lines: seq<Line>, i: nat, acc: seq<Opt>)
    ensures var r := ReadItems(IsRule, AddOption, lines, i, acc);
      r.End? ==> |r.value| + OptionLines(lines, r.at) <= |acc| + OptionLines(lines, i)
    decreases |lines| - i
  {
    if i < |lines| {
      if IsFiltered(lines[i]) {
        PartCounted(lines, i + 1, acc);
      } else if !IsRule(lines[i]) && |lines[i]| >= 2 {
        PartCounted(lines, i + 1, acc + [OptionOf(lines[i])]);
      }
    }
  }

  /** Neither does the whole file, however many parts it opens. */
  lemma {:induction false} FileCounted(kindOf: Line -> Kind, lines: seq<Line>, i: nat, t: Tables)
    ensures var r := ReadFrom(kindOf, lines, i, t);
      r.Done? ==> |r.tables.options| <= |t.options| || |r.tables.options| <= OptionLines(lines, i)
    decreases |lines| - i
  {
    if i < |lines| {
      var kind := kindOf(lines[i]);
      if kind == Other {
        FewerBehind(lines, i, i + 1);
        FileCounted(kindOf, lines, i + 1, t);
      } else if kind == Options {
        var r := ReadItems(IsRule, AddOption, lines, i + 1, []);
        if r.End? {
          PartCounted(lines, i + 1, []);
          FewerBehind(lines, i, i + 1);
          FewerBehind(lines, i, r.at);
          FileCounted(kindOf, lines, r.at, t.(options := r.value));
        }
      } else if kind != Outputs {
        var r := ReadItems(IsRule, RowStep(kind), lines, i + 3, NO_ROWS);
        if r.End? {
          FewerBehind(lines, i, r.at);
          FileCounted(kindOf, lines, r.at, StoreTable(t, kind, r.value));
        }
      }
    }
  }

  /** Of k lines with none behind them that can be an option, there are k only if each is one. */
  lemma {:induction false} CountedExactly(lines: seq<Line>, i: nat, k: nat)
    requires i + k <= |lines| && forall j :: i + k <= j < |lines| ==> !IsOptionLine(lines[j])
    ensures OptionLines(lines, i) <= k
    ensures OptionLines(lines, i) == k ==> forall j :: i <= j < i + k ==> IsOptionLine(lines[j])
    decreases |lines| - i
  {
    if i < |lines| {
      CountedExactly(lines, i + 1, if k > 0 then k - 1 else 0);
    }
  }

  /** Behind a heading and before lines that cannot be options, only these rows can. */
  lemma RowsCounted(before: seq<Line>, heading: Line, rows: seq<Line>, after: seq<Line>)
    requires IsRule(heading) && forall j :: 0 <= j < |after| ==> !IsOptionLine(after[j])
    ensures var lines := before + ([heading] + rows + after);
      && OptionLines(lines, |before|) <= |rows|
      && (OptionLines(lines, |before|) == |rows| ==> AllPlain(rows))
  {
    var lines, first := before + ([heading] + rows + after), |before| + 1;
    assert lines[|before|] == heading;
    forall j | first + |rows| <= j < |lines| ensures !IsOptionLine(lines[j]) {
      assert lines[j] == after[j - first - |rows|];
    }
    CountedExactly(lines, first, |rows|);
    if OptionLines(lines, first) == |rows| {
      forall i | 0 <= i < |rows| ensures IsPlain(rows[i]) {
        assert lines[first + i] == rows[i];
      }
    }
  }

  lemma NoOptionInOutputs(m: Model, j: nat)
    requires j < |PrintedOutputs(m)|
    ensures !IsOptionLine(PrintedOutputs(m)[j])
  {
    HeadingIsRule(Outputs);
    HeadingIsRule(Other);
    if 0 < j <= |m.channels| {
      assert PrintedOutputs(m)[j] == ChannelRow(m.channels[j - 1]);
    }
  }

  /** From the heading of the options on, all of them are stored only if they are plain. */
  lemma OptionsCounted(kindOf: Line -> Kind, m: Model, before: seq<Line>, t: Tables, lines: seq<Line>)
    requires lines == before + (PrintedOptions(m) + PrintedOutputs(m)) && t.options == []
    ensures var r := ReadFrom(kindOf, lines, |before|, t);
      r.Done? && r.tables.options == m.options ==> HasPlainOptions(m)
  {
    HeadingIsRule(Options);
    forall j | 0 <= j < |PrintedOutputs(m)| ensures !IsOptionLine(PrintedOutputs(m)[j]) {
      NoOptionInOutputs(m, j);
    }
    RowsCounted(before, Heading(Options), Map(OptionRow, m.options), PrintedOutputs(m));
    FileCounted(kindOf, lines, |before|, t);
  }

  lemma NoOptionsKept(m: Model)
    requires AllAreRows(m, KINDS)
    ensures AllKept(m, KINDS, NOTHING).options == []
  {
    KeptRest(m, KINDS, NOTHING);
  }

  /** The reader gets to the heading of the options without having stored one. */
  lemma OptionsReached(kindOf: Line -> Kind, m: Model, titles: Titles, preamble: seq<Line>, lines: seq<Line>)
    returns (front: seq<Line>, t: Tables)
    requires Tells(kindOf) && AllAreRows(m, KINDS)
    requires |preamble| == 4 && kindOf(preamble[3]) == Options
    requires kindOf(preamble[0]) == Other && kindOf(preamble[1]) == Other && kindOf(preamble[2]) == Other
    requires lines == preamble + PrintedTables(m, titles, KINDS) + PrintedOptions(m) + PrintedOutputs(m)
    ensures lines == front + (PrintedOptions(m) + PrintedOutputs(m)) && t.options == []
    ensures ReadFrom(kindOf, lines, 0, NOTHING) == ReadFrom(kindOf, lines, |front|, t)
  {
    front, t := preamble + PrintedTables(m, titles, KINDS), AllKept(m, KINDS, NOTHING);
    FrontRead(kindOf, m, titles, preamble);
    NoOptionsKept(m);
    Regroup(front, PrintedOptions(m), PrintedOutputs(m));
  }

  /** When the tables are plain, all options are stored only if these are, too. */
  lemma OptionsStoredPlain(m: Model, titles: Titles)
    requires HasPlainTables(m)
    ensures var r := ReadFrom(LineKind, Printed(m, titles), 0, NOTHING);
      r.Done? && r.tables.options == m.options ==> HasPlainOptions(m)
  {
    AllTablesAreRows(m);
    LineKindTells();
    PreambleTold();
    var front, t := OptionsReached(LineKind, m, titles, Preamble(), Printed(m, titles));
    OptionsCounted(LineKind, m, front, t, Printed(m, titles));
  }

  // ---------- the whole model ----------

  /** Everything that was printed has been read. */
  ghost predicate ModelBack(m: Model, t: Tables) {
    && TablesBack(m, t)
    && t.options == m.options && t.extras == Map(ExtraIn, m.lineTypes) && t.channels == AllOf(m.channels)
  }

  /** No row and no option begins with a rule or a comment mark; the options are of the form the reader
      keeps, the optional columns are aligned, and the names are those of channels. */
  ghost predicate Survives(m: Model) {
    && HasPlainRows(m) && HasPlainOptions(m)
    && (forall o <- m.options :: IsKept(o))
    && AllAligned(m.lineTypes)
    && (forall i :: 0 <= i < |m.channels| ==> IsChannel(m.channels[i]))
  }

  /** A printed model is read back as it was if and only if it is of that form. */
  lemma ModelRestoredExactly(m: Model, titles: Titles)
    requires IsShaped(m)
    ensures var r := ReadFrom(LineKind, Printed(m, titles), 0, NOTHING);
      r.Done? && ModelBack(m, r.tables) <==> Survives(m)
  {
    var r := ReadFrom(LineKind, Printed(m, titles), 0, NOTHING);
    if r.Done? && ModelBack(m, r.tables) {
      TablesStoredPlain(m, titles);
      OptionsStoredPlain(m, titles);
    }
    if IsPrintable(m) {
      MoorDynRoundTrip.MoorDynRoundTrip(m, titles);
    }
  }
}

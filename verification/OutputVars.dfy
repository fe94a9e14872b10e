/**
 GetOutlistParameters: a sheet of header rows and channel rows, each channel with a list of
 aliases, is turned into a generated file in two passes. The first pass numbers the slots of
 the headers, the second fills the slots in order.
 */
module OutputVars {
  import opened Wrappers
  import opened Text

  /** Cells 0 to 5 of a sheet row. */
  datatype Row = Row(group: string, name: string, aliases: string, desc: string, conv: string, unit: string)

  datatype Meta = Meta(desc: string, conv: string, unit: string)

  datatype Entry = Header(text: string) | Channel(name: string)

  /** A written line; a channel line carries the description looked up for its name. */
  datatype Line = HeaderLine(text: string) | ChannelLine(name: string, meta: Meta)

  predicate IsChannel(row: Row) {
    row.name != "" && row.unit != ""
  }

  /** ''.join([i if ord(i) < 128 else ' ' for i in cell]) */
  function Ascii(cell: string): string {
    seq(|cell|, i requires 0 <= i < |cell| => if cell[i] < '\U{80}' then cell[i] else ' ')
  }

  function MetaOf(row: Row): Meta {
    Meta(Ascii(row.desc), Ascii(row.conv), Ascii(row.unit))
  }

  /** The stripped parts that are not empty. */
  function NonEmpty(parts: seq<string>): seq<string> {
    if parts == [] then []
    else
      var rest := NonEmpty(parts[..|parts| - 1]);
      var part := Strip(parts[|parts| - 1]);
      if part != "" then rest + [part] else rest
  }

  function AliasesOf(row: Row): seq<string> {
    NonEmpty(Split(row.aliases, ','))
  }

  // ---------- what the file should hold ----------

  /** The names a channel row stands for: its own and its aliases. */
  function NamesOf(row: Row): seq<string> {
    [row.name] + AliasesOf(row)
  }

  function Channels(names: seq<string>): (entries: seq<Entry>)
    ensures |entries| == |names|
  {
    seq(|names|, i requires 0 <= i < |names| => Channel(names[i]))
  }

  /** The sheet in order: each header once, each channel followed by its aliases. */
  function Flat(rows: seq<Row>): seq<Entry> {
    if rows == [] then []
    else
      var row := rows[|rows| - 1];
      Flat(rows[..|rows| - 1]) + (if IsChannel(row) then Channels(NamesOf(row)) else [Header(row.group)])
  }

  function AllNames(entries: seq<Entry>): seq<string> {
    if entries == [] then []
    else
      var last := entries[|entries| - 1];
      AllNames(entries[..|entries| - 1]) + (if last.Channel? then [last.name] else [])
  }

  /** The description of a name: that of the last row that lists it. */
  function Described(rows: seq<Row>, name: string): Option<Meta> {
    if rows == [] then None
    else
      var row := rows[|rows| - 1];
      if IsChannel(row) && name in NamesOf(row) then Some(MetaOf(row)) else Described(rows[..|rows| - 1], name)
  }

  function Written(rows: seq<Row>, entry: Entry): Option<Line> {
    match entry
    case Header(text) => Some(HeaderLine(text))
    case Channel(name) =>
      var meta := Described(rows, name);
      if meta.None? then None else Some(ChannelLine(name, meta.value))
  }

  // ---------- lists of entries ----------

  lemma {:induction false} AllNamesConcat(a: seq<Entry>, b: seq<Entry>)
    ensures AllNames(a + b) == AllNames(a) + AllNames(b)
  {
    if b == [] {
      assert a + b == a;
    } else {
      assert (a + b)[..|a + b| - 1] == a + b[..|b| - 1];
      AllNamesConcat(a, b[..|b| - 1]);
    }
  }

  lemma {:induction false} AllNamesOfChannels(names: seq<string>)
    ensures AllNames(Channels(names)) == names
  {
    if names != [] {
      assert Channels(names)[..|names| - 1] == Channels(names[..|names| - 1]);
      AllNamesOfChannels(names[..|names| - 1]);
    }
  }

  lemma {:induction false} AllNamesSlot(entries: seq<Entry>, i: nat)
    requires i < |entries| && entries[i].Channel?
    ensures var k := |AllNames(entries[..i])|;
      k < |AllNames(entries)| && AllNames(entries)[k] == entries[i].name
    ensures AllNames(entries[..i + 1]) == AllNames(entries[..i]) + [entries[i].name]
  {
    assert entries[..i + 1][..i] == entries[..i];
    assert entries == entries[..i + 1] + entries[i + 1..];
    AllNamesConcat(entries[..i + 1], entries[i + 1..]);
  }

  lemma {:induction false} EveryNameDescribed(rows: seq<Row>, i: nat)
    requires i < |Flat(rows)| && Flat(rows)[i].Channel?
    ensures Described(rows, Flat(rows)[i].name).Some?
  {
    var n := |rows| - 1;
    if i < |Flat(rows[..n])| {
      EveryNameDescribed(rows[..n], i);
    }
  }

  // ---------- the two passes ----------

  /** The headers dictionary numbers exactly the header entries, from 1. */
  ghost predicate SlotsOf(headers: map<int, string>, entries: seq<Entry>) {
    && (forall i :: i in headers <==> 1 <= i <= |entries| && entries[i - 1].Header?)
    && (forall i :: 1 <= i <= |entries| && entries[i - 1].Header? ==> headers[i] == entries[i - 1].text)
  }

  ghost predicate DictOf(outlist: map<string, Meta>, rows: seq<Row>) {
    forall name :: Described(rows, name) == if name in outlist then Some(outlist[name]) else None
  }

  /** The alias loop of one channel row. */
  method AddAliases(row: Row, meta: Meta, names: seq<string>, dict: map<string, Meta>, n: nat, n_dup: nat)
    returns (var_names: seq<string>, outlist: map<string, Meta>, n': nat, n_dup': nat)
    ensures var_names == names + AliasesOf(row)
    ensures forall name :: name in outlist <==> name in dict || name in AliasesOf(row)
    ensures forall name :: name in outlist ==> outlist[name] == if name in AliasesOf(row) then meta else dict[name]
    ensures n' == n + |AliasesOf(row)| && n_dup' == n_dup + |AliasesOf(row)|
  {
    var_names, outlist, n', n_dup' := names, dict, n, n_dup;
    var parts := Split(row.aliases, ',');
    var i := 0;
    assert parts[..0] == [];
    while i < |parts|
      invariant 0 <= i <= |parts|
      invariant var_names == names + NonEmpty(parts[..i])
      invariant forall name :: name in outlist <==> name in dict || name in NonEmpty(parts[..i])
      invariant forall name :: name in outlist ==>
        outlist[name] == if name in NonEmpty(parts[..i]) then meta else dict[name]
      invariant n' == n + |NonEmpty(parts[..i])| && n_dup' == n_dup + |NonEmpty(parts[..i])|
    {
      assert parts[..i + 1][..i] == parts[..i];
      var alias := Strip(parts[i]);
      if alias != "" {
        outlist := outlist[alias := meta];
        var_names := var_names + [alias];
        n' := n' + 1;
        n_dup' := n_dup' + 1;
      }
      i := i + 1;
    }
    assert parts[..i] == parts;
  }

  /** What the row pass has built from the rows so far; n_dup counts the aliases among them. */
  ghost predicate Read(
      rows: seq<Row>, outlist: map<string, Meta>, headers: map<int, string>, names: seq<string>, n_dup: nat)
  {
    && SlotsOf(headers, Flat(rows)) && names == AllNames(Flat(rows)) && DictOf(outlist, rows)
    && |Flat(rows)| == |rows| + n_dup
  }

  lemma FlatNext(rows: seq<Row>, row: Row)
    ensures Flat(rows + [row]) == Flat(rows) + (if IsChannel(row) then Channels(NamesOf(row)) else [Header(row.group)])
  {
    assert (rows + [row])[..|rows|] == rows;
  }

  lemma ChannelNames(entries: seq<Entry>, row: Row)
    ensures AllNames(entries + Channels(NamesOf(row))) == AllNames(entries) + NamesOf(row)
  {
    AllNamesConcat(entries, Channels(NamesOf(row)));
    AllNamesOfChannels(NamesOf(row));
  }

  lemma HeaderNames(entries: seq<Entry>, text: string)
    ensures AllNames(entries + [Header(text)]) == AllNames(entries)
  {
    AllNamesConcat(entries, [Header(text)]);
    assert [Header(text)][..0] == [];
    assert AllNames(entries) + [] == AllNames(entries);
  }

  lemma ChannelSlots(headers: map<int, string>, entries: seq<Entry>, names: seq<string>)
    requires SlotsOf(headers, entries)
    ensures SlotsOf(headers, entries + Channels(names))
  {
  }

  lemma HeaderSlot(headers: map<int, string>, entries: seq<Entry>, text: string)
    requires SlotsOf(headers, entries)
    ensures SlotsOf(headers[|entries| + 1 := text], entries + [Header(text)])
  {
  }

  lemma ChannelDict(rows: seq<Row>, row: Row, dict: map<string, Meta>, dict': map<string, Meta>)
    requires DictOf(dict, rows) && IsChannel(row)
    requires forall name :: name in dict' <==> name in dict || name in NamesOf(row)
    requires forall name :: name in dict' ==> dict'[name] == if name in NamesOf(row) then MetaOf(row) else dict[name]
    ensures DictOf(dict', rows + [row])
  {
    assert (rows + [row])[..|rows|] == rows;
  }

  lemma HeaderDict(rows: seq<Row>, row: Row, dict: map<string, Meta>)
    requires DictOf(dict, rows) && !IsChannel(row)
    ensures DictOf(dict, rows + [row])
  {
    assert (rows + [row])[..|rows|] == rows;
  }

  /** A channel row adds its names and its description, and no header slot. */
  method ReadChannel(
      row: Row, outlist: map<string, Meta>, ghost headers: map<int, string>, names: seq<string>, n: nat, n_dup: nat,
      ghost rows: seq<Row>)
    returns (outlist': map<string, Meta>, names': seq<string>, n': nat, n_dup': nat)
    requires Read(rows, outlist, headers, names, n_dup) && IsChannel(row)
    ensures Read(rows + [row], outlist', headers, names', n_dup')
    ensures n' - n == n_dup' - n_dup
  {
    names' := names + [row.name];
    outlist' := outlist[row.name := MetaOf(row)];
    names', outlist', n', n_dup' := AddAliases(row, outlist'[row.name], names', outlist', n, n_dup);
    assert names' == names + NamesOf(row);
    FlatNext(rows, row);
    ChannelNames(Flat(rows), row);
    ChannelSlots(headers, Flat(rows), NamesOf(row));
    ChannelDict(rows, row, outlist, outlist');
  }

  /** A header row takes the next slot, and adds no name. */
  lemma {:induction false} HeaderRead(
      row: Row, outlist: map<string, Meta>, headers: map<int, string>, headers': map<int, string>, names: seq<string>,
      n_dup: nat, rows: seq<Row>)
    requires Read(rows, outlist, headers, names, n_dup) && !IsChannel(row)
    requires headers' == headers[|rows| + 1 + n_dup := row.group]
    ensures Read(rows + [row], outlist, headers', names, n_dup)
  {
    var flat := Flat(rows);
    FlatNext(rows, row);
    assert Flat(rows + [row]) == flat + [Header(row.group)];
    HeaderNames(flat, row.group);
    HeaderSlot(headers, flat, row.group);
    HeaderDict(rows, row, outlist);
    assert |flat| + 1 == |rows| + 1 + n_dup;
  }

  /** One turn of the row pass: idx is the row of the sheet, n the number of slots so far. */
  method ReadRow(
      row: Row, idx: nat, outlist: map<string, Meta>, headers: map<int, string>, names: seq<string>, n: nat, n_dup: nat,
      ghost rows: seq<Row>)
    returns (outlist': map<string, Meta>, headers': map<int, string>, names': seq<string>, n': nat, n_dup': nat)
    requires Read(rows, outlist, headers, names, n_dup) && idx == |rows| + 1
    ensures Read(rows + [row], outlist', headers', names', n_dup')
    ensures n' - n == n_dup' - n_dup
  {
    outlist', headers', names', n', n_dup' := outlist, headers, names, n, n_dup;
    if IsChannel(row) {
      outlist', names', n', n_dup' := ReadChannel(row, outlist, headers, names, n, n_dup, rows);
    } else {
      headers' := headers[idx + n_dup := row.group];
      HeaderRead(row, outlist, headers, headers', names, n_dup, rows);
    }
  }

  lemma NothingRead()
    ensures Read([], map[], map[], [], 0)
  {
  }

  lemma SlotsRead(rows: seq<Row>, outlist: map<string, Meta>, headers: map<int, string>, names: seq<string>, n_dup: nat)
    requires Read(rows, outlist, headers, names, n_dup)
    ensures |Flat(rows)| == |rows| + n_dup
  {
  }

  lemma OneMoreRow(rows: seq<Row>, k: nat)
    requires k < |rows|
    ensures rows[..k] + [rows[k]] == rows[..k + 1]
  {
  }

  /** The row pass. `rows` are the sheet rows behind the title row, so the sheet has |rows| + 1. */
  method ReadRows(rows: seq<Row>)
    returns (outlist: map<string, Meta>, headers: map<int, string>, var_names: seq<string>, n: nat, ghost n_dup: nat)
    ensures n == |Flat(rows)| + 1
    ensures Read(rows, outlist, headers, var_names, n_dup)
  {
    outlist, headers, var_names, n := map[], map[], [], |rows| + 1;
    var dup, idx := 0, 1;
    assert rows[..0] == [];
    NothingRead();
    while idx < |rows| + 1
      invariant 1 <= idx <= |rows| + 1
      invariant n == |rows| + 1 + dup
      invariant Read(rows[..idx - 1], outlist, headers, var_names, dup)
    {
      outlist, headers, var_names, n, dup :=
        ReadRow(rows[idx - 1], idx, outlist, headers, var_names, n, dup, rows[..idx - 1]);
      OneMoreRow(rows, idx - 1);
      idx := idx + 1;
    }
    n_dup := dup;
    assert rows[..idx - 1] == rows;
    SlotsRead(rows, outlist, headers, var_names, n_dup);
  }

  /** What the tables of the row pass hold for slot idx, with var_count names written before it. */
  lemma SlotWritten(
      rows: seq<Row>, outlist: map<string, Meta>, headers: map<int, string>, names: seq<string>,
      idx: nat, var_count: nat)
    requires SlotsOf(headers, Flat(rows)) && names == AllNames(Flat(rows)) && DictOf(outlist, rows)
    requires 1 <= idx <= |Flat(rows)| && var_count == |AllNames(Flat(rows)[..idx - 1])|
    ensures var entry := Flat(rows)[idx - 1];
      if idx in headers then
        Written(rows, entry) == Some(HeaderLine(headers[idx])) && |AllNames(Flat(rows)[..idx])| == var_count
      else
        && var_count < |names| && names[var_count] in outlist
        && Written(rows, entry) == Some(ChannelLine(names[var_count], outlist[names[var_count]]))
        && |AllNames(Flat(rows)[..idx])| == var_count + 1
  {
    var flat := Flat(rows);
    assert flat[..idx][..idx - 1] == flat[..idx - 1];
    if idx !in headers {
      AllNamesSlot(flat, idx - 1);
      EveryNameDescribed(rows, idx - 1);
    }
  }

  /** Both passes over one sheet: every header and every channel and alias is written exactly once, in
      sheet order, and the name list is never indexed past its end. */
  method Generate(rows: seq<Row>) returns (lines: seq<Line>)
    ensures |lines| == |Flat(rows)|
    ensures forall i :: 0 <= i < |lines| ==> Written(rows, Flat(rows)[i]) == Some(lines[i])
  {
    var outlist, headers, var_names, n, n_dup := ReadRows(rows);
    lines := [];
    var var_count := 0;
    var idx := 1;
    while idx < n
      invariant 1 <= idx <= n && |lines| == idx - 1
      invariant var_count == |AllNames(Flat(rows)[..idx - 1])|
      invariant forall i :: 0 <= i < |lines| ==> Written(rows, Flat(rows)[i]) == Some(lines[i])
    {
      SlotWritten(rows, outlist, headers, var_names, idx, var_count);
      if idx in headers {
        lines := lines + [HeaderLine(headers[idx])];
      } else {
        var name := var_names[var_count];
        lines := lines + [ChannelLine(name, outlist[name])];
        var_count := var_count + 1;
      }
      idx := idx + 1;
    }
  }

  /** A channel line carries the description of the last row that lists its name, in particular that of
      its own row when no other lists it. */
  lemma {:induction false} OwnDescription(rows: seq<Row>, k: nat, name: string)
    requires k < |rows| && IsChannel(rows[k]) && name in NamesOf(rows[k])
    requires forall j :: k < j < |rows| && IsChannel(rows[j]) ==> name !in NamesOf(rows[j])
    ensures Described(rows, name) == Some(MetaOf(rows[k]))
  {
    if k < |rows| - 1 {
      OwnDescription(rows[..|rows| - 1], k, name);
    }
  }
}

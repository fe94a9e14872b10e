/** The lines generated from a sheet, row by row and cell by cell. */
module OutputLines {
  import opened Wrappers
  import opened Text
  import opened OutputVars

  // ---------- cells ----------

  /** The cell with every character beyond ASCII replaced by a blank. */
  ghost predicate IsAsciiOf(text: string, cell: string) {
    && |text| == |cell|
    && forall i :: 0 <= i < |cell| ==> text[i] == if cell[i] as int < 128 then cell[i] else ' '
  }

  /** The description, convention and unit are those of the row. */
  ghost predicate Describes(meta: Meta, row: Row) {
    IsAsciiOf(meta.desc, row.desc) && IsAsciiOf(meta.conv, row.conv) && IsAsciiOf(meta.unit, row.unit)
  }

  lemma MetaDescribes(row: Row)
    ensures Describes(MetaOf(row), row)
  {
  }

  /** The row names a channel with a unit; any other row is a header. */
  predicate HasChannel(row: Row) {
    |row.name| > 0 && |row.unit| > 0
  }

  // ---------- aliases ----------

  lemma {:induction false} NonEmptyConcat(a: seq<string>, b: seq<string>)
    ensures NonEmpty(a + b) == NonEmpty(a) + NonEmpty(b)
  {
    if b == [] {
      assert a + b == a;
    } else {
      assert (a + b)[..|a + b| - 1] == a + b[..|b| - 1];
      NonEmptyConcat(a, b[..|b| - 1]);
    }
  }

  lemma NonEmptyOne(part: string)
    ensures NonEmpty([part]) == if Strip(part) == "" then [] else [Strip(part)]
  {
    assert [part][..0] == [];
  }

  /** The aliases in the order of the cell: a part that is blank is none, any other stands for the text
      between its blanks. */
  lemma {:induction false} AliasAt(parts: seq<string>, i: nat)
    requires i < |parts|
    ensures NonEmpty(parts) ==
            NonEmpty(parts[..i]) + (if Strip(parts[i]) == "" then [] else [Strip(parts[i])]) + NonEmpty(parts[i + 1..])
  {
    assert parts == parts[..i] + ([parts[i]] + parts[i + 1..]);
    NonEmptyConcat(parts[..i], [parts[i]] + parts[i + 1..]);
    NonEmptyConcat([parts[i]], parts[i + 1..]);
    NonEmptyOne(parts[i]);
  }

  /** The cell holds the parts with commas between them. */
  lemma AliasesListed(row: Row, parts: seq<string>)
    requires parts != [] && (forall i :: 0 <= i < |parts| ==> ',' !in parts[i]) && row.aliases == JoinBy(parts, ',')
    ensures AliasesOf(row) == NonEmpty(parts)
  {
    JoinedSplit(parts, ',');
  }

  // ---------- the lines of a row ----------

  /** What the two passes promise of the lines they write. */
  ghost predicate Generated(rows: seq<Row>, lines: seq<Line>) {
    && |lines| == |Flat(rows)|
    && forall i :: 0 <= i < |lines| ==> Written(rows, Flat(rows)[i]) == Some(lines[i])
  }

  /** The number of lines the rows before row k take. */
  function LinesBefore(rows: seq<Row>, k: nat): nat
    requires k <= |rows|
  {
    |Flat(rows[..k])|
  }

  /** The entries of one row. */
  function EntriesOf(row: Row): seq<Entry> {
    if HasChannel(row) then Channels(NamesOf(row)) else [Header(row.group)]
  }

  lemma FlatStep(rows: seq<Row>, k: nat)
    requires k < |rows|
    ensures Flat(rows[..k + 1]) == Flat(rows[..k]) + EntriesOf(rows[k])
  {
    assert rows[..k + 1][..k] == rows[..k];
  }

  lemma {:induction false} FlatPrefix(rows: seq<Row>, k: nat)
    requires k <= |rows|
    ensures Flat(rows[..k]) <= Flat(rows)
  {
    if k == |rows| {
      assert rows[..k] == rows;
    } else {
      assert rows[..|rows| - 1][..k] == rows[..k];
      FlatPrefix(rows[..|rows| - 1], k);
    }
  }

  /** Where the entries of row k stand. */
  lemma EntriesAt(rows: seq<Row>, k: nat)
    requires k < |rows|
    ensures LinesBefore(rows, k + 1) == LinesBefore(rows, k) + |EntriesOf(rows[k])| <= |Flat(rows)|
    ensures forall j :: 0 <= j < |EntriesOf(rows[k])| ==> Flat(rows)[LinesBefore(rows, k) + j] == EntriesOf(rows[k])[j]
  {
    FlatStep(rows, k);
    FlatPrefix(rows, k + 1);
    PartOfPrefix(Flat(rows[..k]), EntriesOf(rows[k]), Flat(rows[..k + 1]), Flat(rows));
  }

  lemma PartOfPrefix(a: seq<Entry>, b: seq<Entry>, ab: seq<Entry>, all: seq<Entry>)
    requires ab == a + b && ab <= all
    ensures |ab| == |a| + |b| <= |all| && forall j :: 0 <= j < |b| ==> all[|a| + j] == b[j]
  {
    forall j | 0 <= j < |b| ensures all[|a| + j] == b[j] {
      assert all[..|ab|][|a| + j] == ab[|a| + j];
    }
  }

  /** The line in place j of row k. */
  lemma LineAt(rows: seq<Row>, lines: seq<Line>, k: nat, j: nat)
    requires Generated(rows, lines) && k < |rows| && j < |EntriesOf(rows[k])|
    ensures LinesBefore(rows, k) + j < |lines|
    ensures Written(rows, EntriesOf(rows[k])[j]) == Some(lines[LinesBefore(rows, k) + j])
  {
    EntriesAt(rows, k);
  }

  /** A header row is written as its first cell, in the place of the row. */
  lemma {:induction false} HeaderWritten(rows: seq<Row>, lines: seq<Line>, k: nat)
    requires Generated(rows, lines) && k < |rows| && (rows[k].name == "" || rows[k].unit == "")
    ensures var o := LinesBefore(rows, k);
      LinesBefore(rows, k + 1) == o + 1 <= |lines| && lines[o] == HeaderLine(rows[k].group)
  {
    EntriesAt(rows, k);
    LineAt(rows, lines, k, 0);
  }

  /** The name in place j of a channel row: its own, or an alias. */
  function NameAt(row: Row, j: nat): string
    requires j <= |AliasesOf(row)|
  {
    if j == 0 then row.name else AliasesOf(row)[j - 1]
  }

  predicate Lists(row: Row, name: string) {
    HasChannel(row) && (name == row.name || name in AliasesOf(row))
  }

  /** The last row that lists the name. */
  ghost predicate IsLast(rows: seq<Row>, name: string, last: nat) {
    last < |rows| && Lists(rows[last], name) && forall i :: last < i < |rows| ==> !Lists(rows[i], name)
  }

  /** Each name of a channel row has a line in the place of the row, with the description, convention and
      unit of the last row that lists it. */
  lemma {:induction false} ChannelWritten(rows: seq<Row>, lines: seq<Line>, k: nat, j: nat, last: nat)
    requires Generated(rows, lines) && k < |rows| && HasChannel(rows[k]) && j <= |AliasesOf(rows[k])|
    requires IsLast(rows, NameAt(rows[k], j), last)
    ensures LinesBefore(rows, k + 1) == LinesBefore(rows, k) + 1 + |AliasesOf(rows[k])| <= |lines|
    ensures var line := lines[LinesBefore(rows, k) + j];
      line.ChannelLine? && line.name == NameAt(rows[k], j) && Describes(line.meta, rows[last])
  {
    EntriesAt(rows, k);
    LineAt(rows, lines, k, j);
    LastDescription(rows, NameAt(rows[k], j), last);
    MetaDescribes(rows[last]);
  }

  lemma LastDescription(rows: seq<Row>, name: string, last: nat)
    requires IsLast(rows, name, last)
    ensures Described(rows, name) == Some(MetaOf(rows[last]))
  {
    forall i | last < i < |rows| && IsChannel(rows[i]) ensures name !in NamesOf(rows[i]) {
      assert !Lists(rows[i], name);
    }
    OwnDescription(rows, last, name);
  }
}
